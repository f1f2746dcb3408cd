/** The daemon's SQLite state: peers, owner octets and instances, with the schema's constraints. */
module Database {
  import opened Base
  import opened Ipv4

  datatype Peer = Peer(id: nat, owner: Owner, username: string, ip: Address,
                       publicKey: string, privateKey: Option<string>)

  /** Container states as Docker reports them. */
  datatype Status = Created | Running | Paused | Restarting | Removing | Exited | Dead

  type PortMap = map<string, int>

  /** `assignedIp` is `None` where the table holds the empty string. */
  datatype Instance = Instance(id: nat, containerId: nat, containerName: string, owner: Owner, challengeRef: string,
                               assignedIp: Option<Address>, ports: seq<string>, publishedPorts: PortMap,
                               status: Status, expiresAt: Option<string>)

  type Octets = map<Owner, int>

  // ----- the schema

  /** Rows come in the order of their ids. */
  ghost predicate PeersAscend(peers: seq<Peer>) {
    peers == [] || (PeersAscend(peers[1..]) && forall p :: p in peers[1..] ==> peers[0].id < p.id)
  }

  ghost predicate InstancesAscend(rows: seq<Instance>) {
    rows == [] || (InstancesAscend(rows[1..]) && forall r :: r in rows[1..] ==> rows[0].id < r.id)
  }

  /** AUTOINCREMENT ids in insertion order; username and ip_address UNIQUE. */
  ghost predicate PeerTable(peers: seq<Peer>, nextId: nat) {
    && PeersAscend(peers)
    && (forall p :: p in peers ==> p.id < nextId)
    && (forall p, q :: p in peers && q in peers && p.username == q.username ==> p == q)
    && (forall p, q :: p in peers && q in peers && p.ip == q.ip ==> p == q)
  }

  /** One octet per owner (the map), one owner per octet, values checked. */
  ghost predicate OctetTable(octets: Octets) {
    && (forall o :: o in octets ==> 1 <= octets[o] <= 254)
    && (forall o, o' :: o in octets && o' in octets && octets[o] == octets[o'] ==> o == o')
  }

  /** container_id UNIQUE and (owner, challenge_ref) UNIQUE. */
  ghost predicate InstanceTable(rows: seq<Instance>, nextId: nat) {
    && InstancesAscend(rows)
    && (forall r :: r in rows ==> r.id < nextId)
    && (forall r, s :: r in rows && s in rows && r.containerId == s.containerId ==> r == s)
    && (forall r, s :: r in rows && s in rows && r.owner == s.owner && r.challengeRef == s.challengeRef ==> r == s)
  }

  // ----- queries as functions of the tables

  /** The row of one (owner, challenge). */
  function FindInstance(rows: seq<Instance>, owner: Owner, challengeRef: string): (r: Option<Instance>)
    ensures r.Some? ==> r.value in rows && r.value.owner == owner && r.value.challengeRef == challengeRef
    ensures r.None? ==> forall row :: row in rows ==> row.owner != owner || row.challengeRef != challengeRef
  {
    if rows == [] then None
    else if rows[0].owner == owner && rows[0].challengeRef == challengeRef then Some(rows[0])
    else FindInstance(rows[1..], owner, challengeRef)
  }

  function WithStatus(rows: seq<Instance>, status: Status): (s: seq<Instance>)
    ensures forall r :: r in s <==> r in rows && r.status == status
  {
    if rows == [] then []
    else if rows[0].status != status then WithStatus(rows[1..], status)
    else [rows[0]] + WithStatus(rows[1..], status)
  }

  function WithoutContainer(rows: seq<Instance>, containerId: nat): (s: seq<Instance>)
    ensures forall r :: r in s <==> r in rows && r.containerId != containerId
    ensures |s| <= |rows|
    ensures (forall r :: r in rows ==> r.containerId != containerId) ==> s == rows
  {
    if rows == [] then []
    else if rows[0].containerId == containerId then WithoutContainer(rows[1..], containerId)
    else [rows[0]] + WithoutContainer(rows[1..], containerId)
  }

  function WithStatusOf(rows: seq<Instance>, containerId: nat, status: Status): (s: seq<Instance>)
    ensures |s| == |rows|
    ensures forall i :: 0 <= i < |rows| ==>
              s[i] == if rows[i].containerId == containerId then rows[i].(status := status) else rows[i]
  {
    seq(|rows|, i requires 0 <= i < |rows| =>
      if rows[i].containerId == containerId then rows[i].(status := status) else rows[i])
  }

  function UsedInstanceIps(rows: seq<Instance>, owner: Owner): (used: set<Option<Address>>)
    ensures forall a :: a in used <==> exists r :: r in rows && r.owner == owner && r.status == Running && r.assignedIp == a
  {
    set r | r in rows && r.owner == owner && r.status == Running :: r.assignedIp
  }

  function CountForOwner(rows: seq<Instance>, owner: Owner): (n: nat)
    ensures n == 0 <==> forall r :: r in rows ==> r.owner != owner
  {
    if rows == [] then 0 else (if rows[0].owner == owner then 1 else 0) + CountForOwner(rows[1..], owner)
  }

  function PublishedPorts(rows: seq<Instance>): (used: set<int>)
    ensures forall p :: p in used <==> exists r :: r in rows && p in r.publishedPorts.Values
  {
    set r, p | r in rows && p in r.publishedPorts.Values :: p
  }

  function WithoutUser(peers: seq<Peer>, username: string): (s: seq<Peer>)
    ensures forall p :: p in s <==> p in peers && p.username != username
    ensures |s| <= |peers|
    ensures (forall p :: p in peers ==> p.username != username) ==> s == peers
  {
    if peers == [] then []
    else if peers[0].username == username then WithoutUser(peers[1..], username)
    else [peers[0]] + WithoutUser(peers[1..], username)
  }

  function UsedPeerIps(peers: seq<Peer>): set<Address> { set p | p in peers :: p.ip }

  function UsedOctets(octets: Octets): set<int> { octets.Values }

  /** The lowest octet from `k` on that nobody holds. */
  function LowestUnheld(octets: Octets, k: int): (r: Option<int>)
    ensures r.Some? ==> k <= r.value <= 254 && r.value !in UsedOctets(octets) &&
                        forall j :: k <= j < r.value ==> j in UsedOctets(octets)
    ensures r.None? ==> forall j :: k <= j <= 254 ==> j in UsedOctets(octets)
    decreases 254 - k
  {
    if k > 254 then None
    else if k !in UsedOctets(octets) then Some(k)
    else LowestUnheld(octets, k + 1)
  }

  /** The octet a request of this owner will be given. */
  function OctetFor(octets: Octets, owner: Owner): Option<int> {
    if owner in octets then Some(octets[owner]) else LowestUnheld(octets, 1)
  }

  /** The table after that request. */
  function GrantedOctets(octets: Octets, owner: Owner): Octets {
    if owner in octets || LowestUnheld(octets, 1).None? then octets else octets[owner := LowestUnheld(octets, 1).value]
  }

  // ----- writes keep the constraints

  /** `get_peer`. */
  function FindPeer(peers: seq<Peer>, username: string): (r: Option<Peer>)
    ensures r.Some? <==> HasUsername(peers, username)
    ensures r.Some? ==> r.value in peers && r.value.username == username
  {
    if peers == [] then None else if peers[0].username == username then Some(peers[0]) else FindPeer(peers[1..], username)
  }

  predicate HasUsername(peers: seq<Peer>, username: string) {
    exists p :: p in peers && p.username == username
  }

  predicate Collides(rows: seq<Instance>, containerId: nat, owner: Owner, challengeRef: string) {
    exists s :: s in rows && (s.containerId == containerId || (s.owner == owner && s.challengeRef == challengeRef))
  }

  lemma AppendKeepsPeerTable(peers: seq<Peer>, peer: Peer)
    requires PeerTable(peers, peer.id)
    requires !HasUsername(peers, peer.username) && peer.ip !in UsedPeerIps(peers)
    ensures PeerTable(peers + [peer], peer.id + 1)
  {
    AppendKeepsPeerOrder(peers, peer);
  }

  lemma AppendKeepsInstanceTable(rows: seq<Instance>, row: Instance)
    requires InstanceTable(rows, row.id)
    requires !Collides(rows, row.containerId, row.owner, row.challengeRef)
    ensures InstanceTable(rows + [row], row.id + 1)
  {
    AppendKeepsInstanceOrder(rows, row);
  }

  lemma {:induction false} RemovalKeepsPeerOrder(peers: seq<Peer>, username: string)
    requires PeersAscend(peers)
    ensures PeersAscend(WithoutUser(peers, username))
  {
    if peers != [] {
      var rest := WithoutUser(peers[1..], username);
      RemovalKeepsPeerOrder(peers[1..], username);
      assert ([peers[0]] + rest)[1..] == rest;
    }
  }

  lemma {:induction false} AppendKeepsPeerOrder(peers: seq<Peer>, peer: Peer)
    requires PeersAscend(peers) && forall p :: p in peers ==> p.id < peer.id
    ensures PeersAscend(peers + [peer])
  {
    if peers != [] {
      AppendKeepsPeerOrder(peers[1..], peer);
      assert (peers + [peer])[1..] == peers[1..] + [peer];
    }
  }

  lemma {:induction false} RemovalKeepsInstanceOrder(rows: seq<Instance>, containerId: nat)
    requires InstancesAscend(rows)
    ensures InstancesAscend(WithoutContainer(rows, containerId))
  {
    if rows != [] {
      var rest := WithoutContainer(rows[1..], containerId);
      RemovalKeepsInstanceOrder(rows[1..], containerId);
      assert ([rows[0]] + rest)[1..] == rest;
    }
  }

  /** Deleting by a unique container id deletes one row. */
  lemma {:induction false} RemovalCount(rows: seq<Instance>, nextId: nat, row: Instance)
    requires InstanceTable(rows, nextId) && row in rows
    ensures |WithoutContainer(rows, row.containerId)| == |rows| - 1
  {
    var tail := rows[1..];
    if rows[0] == row {
      forall r | r in tail
        ensures r.containerId != row.containerId
      {
        assert r in rows && r.id != row.id;
      }
    } else {
      assert InstanceTable(tail, nextId);
      RemovalCount(tail, nextId, row);
    }
  }

  lemma {:induction false} AppendKeepsInstanceOrder(rows: seq<Instance>, row: Instance)
    requires InstancesAscend(rows) && forall r :: r in rows ==> r.id < row.id
    ensures InstancesAscend(rows + [row])
  {
    if rows != [] {
      AppendKeepsInstanceOrder(rows[1..], row);
      assert (rows + [row])[1..] == rows[1..] + [row];
    }
  }

  lemma {:induction false} AscendingIsDistinct(rows: seq<Instance>)
    requires InstancesAscend(rows)
    ensures Distinct(rows)
  {
    if rows != [] {
      AscendingIsDistinct(rows[1..]);
      forall j | 0 < j < |rows|
        ensures rows[0] != rows[j]
      {
        assert rows[j] in rows[1..];
      }
      assert forall i, j :: 0 < i < j < |rows| ==> rows[i] == rows[1..][i - 1] && rows[j] == rows[1..][j - 1];
    }
  }

  /** Outcomes of `allocate_peer`: the row, or one of its two exceptions. */
  datatype PeerResult = Inserted(peer: Peer) | AddressesExhausted | UsernameTaken

  /** The tables as a value, with the failed writes so far. */
  datatype DbView = DbView(peers: seq<Peer>, nextPeerId: nat, octets: Octets, instances: seq<Instance>, faults: nat)

  class DatabaseManager {
    var peers: seq<Peer>
    var octets: Octets
    var instances: seq<Instance>
    var nextPeerId: nat
    var nextInstanceId: nat
    /** Writes of an instance that failed for no fault of the row. */
    var faults: nat

    ghost predicate Valid()
      reads this
    {
      PeerTable(peers, nextPeerId) && OctetTable(octets) && InstanceTable(instances, nextInstanceId)
    }

    ghost function View(): DbView
      reads this
    {
      DbView(peers, nextPeerId, octets, instances, faults)
    }

    constructor ()
      ensures Valid() && peers == [] && octets == map[] && instances == []
    {
      peers, octets, instances := [], map[], [];
      nextPeerId, nextInstanceId, faults := 1, 1, 0;
    }

    // ----- peers

    /** `allocate_peer`: the first free candidate. Choosing and inserting are one transaction under
        the lock, so the source's retry on an address clash never fires; the address is looked for
        before the INSERT can report a duplicate username. */
    method AllocatePeer(owner: Owner, username: string, publicKey: string, privateKey: Option<string>,
                        candidates: seq<Address>)
      returns (r: PeerResult)
      requires Valid()
      modifies this`peers, this`nextPeerId
      ensures Valid()
      ensures r == var free := FirstNotIn(candidates, UsedPeerIps(old(peers)));
                   if free.None? then AddressesExhausted
                   else if HasUsername(old(peers), username) then UsernameTaken
                   else Inserted(Peer(old(nextPeerId), owner, username, free.value, publicKey, privateKey))
      ensures peers == if r.Inserted? then old(peers) + [r.peer] else old(peers)
    {
      var ip := FirstFreeAddress(candidates);
      if ip.None? {
        return AddressesExhausted;
      }
      if HasUsername(peers, username) {
        return UsernameTaken;
      }
      FirstNotInIsFree(candidates, UsedPeerIps(peers));
      var peer := Peer(nextPeerId, owner, username, ip.value, publicKey, privateKey);
      AppendKeepsPeerTable(peers, peer);
      peers, nextPeerId := peers + [peer], nextPeerId + 1;
      r := Inserted(peer);
    }

    method FirstFreeAddress(candidates: seq<Address>) returns (ip: Option<Address>)
      ensures ip == FirstNotIn(candidates, UsedPeerIps(peers))
    {
      var used := UsedPeerIps(peers);
      for i := 0 to |candidates|
        invariant FirstNotIn(candidates, used) == FirstNotIn(candidates[i..], used)
      {
        if candidates[i] !in used {
          return Some(candidates[i]);
        }
        assert candidates[i..][1..] == candidates[i + 1..];
      }
      ip := None;
    }

    method RemovePeer(username: string) returns (removed: bool)
      requires Valid()
      modifies this`peers
      ensures Valid()
      ensures peers == WithoutUser(old(peers), username)
      ensures removed == HasUsername(old(peers), username)
    {
      RemovalKeepsPeerOrder(peers, username);
      removed := HasUsername(peers, username);
      peers := WithoutUser(peers, username);
    }

    /** `peers_grouped_by_owner`: per owner, its peers' addresses in id order. */
    method PeersGroupedByOwner() returns (groups: map<Owner, seq<Address>>)
      ensures forall o :: o in groups <==> AddressesOf(peers, o) != []
      ensures forall o :: o in groups ==> groups[o] == AddressesOf(peers, o)
    {
      groups := map[];
      for i := 0 to |peers|
        invariant forall o :: o in groups <==> AddressesOf(peers[..i], o) != []
        invariant forall o :: o in groups ==> groups[o] == AddressesOf(peers[..i], o)
      {
        var p := peers[i];
        forall o {
          AddressesOfStep(peers, i, o);
        }
        groups := groups[p.owner := (if p.owner in groups then groups[p.owner] else []) + [p.ip]];
      }
      assert peers[..|peers|] == peers;
    }

    // ----- octets

    /** `allocate_octet`: the octet held, else the lowest free one; `None` when all 254 are held. */
    method AllocateOctet(owner: Owner) returns (r: Option<int>)
      requires Valid()
      modifies this`octets
      ensures Valid()
      ensures r == OctetFor(old(octets), owner)
      ensures owner in old(octets) ==> r == Some(old(octets)[owner]) && octets == old(octets)
      ensures owner !in old(octets) ==>
                if r.Some? then
                  octets == old(octets)[owner := r.value] && r.value !in UsedOctets(old(octets)) &&
                  forall k :: 1 <= k < r.value ==> k in UsedOctets(old(octets))
                else octets == old(octets) && forall k :: 1 <= k <= 254 ==> k in UsedOctets(old(octets))
    {
      if owner in octets {
        return Some(octets[owner]);
      }
      var used := UsedOctets(octets);
      for k := 1 to 255
        invariant octets == old(octets) && LowestUnheld(octets, 1) == LowestUnheld(octets, k)
      {
        if k !in used {
          assert forall o :: o in octets ==> octets[o] in used;
          octets := octets[owner := k];
          return Some(k);
        }
      }
      r := None;
    }

    method FreeOctet(owner: Owner) returns (removed: bool)
      requires Valid()
      modifies this`octets
      ensures Valid()
      ensures octets == old(octets) - {owner} && removed == (owner in old(octets))
    {
      removed := owner in octets;
      octets := octets - {owner};
    }

    /** `get_all_owner_octets`: every row, by ascending octet. */
    method AllOwnerOctets() returns (rows: seq<(Owner, int)>)
      requires Valid()
      ensures forall o, k :: (o, k) in rows <==> o in octets && octets[o] == k
      ensures forall i, j :: 0 <= i < j < |rows| ==> rows[i].1 < rows[j].1
    {
      rows := [];
      for k := 1 to 255
        invariant forall i :: 0 <= i < |rows| ==> rows[i].1 < k
        invariant forall i, j :: 0 <= i < j < |rows| ==> rows[i].1 < rows[j].1
        invariant forall o, j :: (o, j) in rows <==> o in octets && octets[o] == j && j < k
      {
        if o :| o in octets && octets[o] == k {
          rows := rows + [(o, k)];
        }
      }
    }

    // ----- instances

    /** `add_instance`: refused on a collision; the write itself may also fail, which is counted. */
    method AddInstance(containerId: nat, containerName: string, owner: Owner, challengeRef: string,
                       assignedIp: Option<Address>, ports: seq<string>, publishedPorts: PortMap,
                       status: Status, expiresAt: Option<string>)
      returns (r: AddResult)
      requires Valid()
      modifies this`instances, this`nextInstanceId, this`faults
      ensures Valid()
      ensures faults == old(faults) + if r.WriteFailed? then 1 else 0
      ensures r.Collision? <==> Collides(old(instances), containerId, owner, challengeRef)
      ensures r.Added? ==>
                r.row == Instance(old(nextInstanceId), containerId, containerName, owner, challengeRef, assignedIp,
                                  ports, publishedPorts, status, expiresAt)
      ensures instances == if r.Added? then old(instances) + [r.row] else old(instances)
    {
      if Collides(instances, containerId, owner, challengeRef) {
        return Collision;
      }
      var diskFault: bool := *;
      if diskFault {
        faults := faults + 1;
        return WriteFailed;
      }
      var row := Instance(nextInstanceId, containerId, containerName, owner, challengeRef, assignedIp,
                          ports, publishedPorts, status, expiresAt);
      AppendKeepsInstanceTable(instances, row);
      instances, nextInstanceId := instances + [row], nextInstanceId + 1;
      r := Added(row);
    }

    method RemoveInstance(containerId: nat) returns (removed: bool)
      requires Valid()
      modifies this`instances
      ensures Valid()
      ensures instances == WithoutContainer(old(instances), containerId)
      ensures removed <==> exists r :: r in old(instances) && r.containerId == containerId
      ensures |instances| == |old(instances)| - if removed then 1 else 0
    {
      RemovalKeepsInstanceOrder(instances, containerId);
      removed := exists r :: r in instances && r.containerId == containerId;
      if r :| r in instances && r.containerId == containerId {
        RemovalCount(instances, nextInstanceId, r);
      }
      instances := WithoutContainer(instances, containerId);
    }

    method UpdateInstanceStatus(containerId: nat, status: Status)
      requires Valid()
      modifies this`instances
      ensures Valid()
      ensures instances == WithStatusOf(old(instances), containerId, status)
    {
      StatusKeepsInstanceTable(instances, nextInstanceId, containerId, status);
      instances := WithStatusOf(instances, containerId, status);
    }
  }

  /** Outcomes of `add_instance`: ValueError on a collision, any other database error, or the row. */
  datatype AddResult = Added(row: Instance) | Collision | WriteFailed

  /** The addresses of one owner's peers, in id order. */
  function AddressesOf(peers: seq<Peer>, owner: Owner): seq<Address> {
    if peers == [] then []
    else
      var p := peers[|peers| - 1];
      AddressesOf(peers[..|peers| - 1], owner) + (if p.owner == owner then [p.ip] else [])
  }

  lemma AddressesOfStep(peers: seq<Peer>, i: nat, owner: Owner)
    requires i < |peers|
    ensures AddressesOf(peers[..i + 1], owner) ==
            if peers[i].owner == owner then AddressesOf(peers[..i], owner) + [peers[i].ip]
            else AddressesOf(peers[..i], owner)
  {
    assert peers[..i + 1][..i] == peers[..i];
  }

  lemma {:induction false} AddressesOfMembers(peers: seq<Peer>, owner: Owner, a: Address)
    ensures a in AddressesOf(peers, owner) <==> exists p :: p in peers && p.owner == owner && p.ip == a
  {
    if peers != [] {
      var init, last := peers[..|peers| - 1], peers[|peers| - 1];
      AddressesOfMembers(init, owner, a);
      assert forall p :: p in peers <==> p in init || p == last;
    }
  }

  lemma {:induction false} StatusKeepsInstanceOrder(rows: seq<Instance>, containerId: nat, status: Status)
    requires InstancesAscend(rows)
    ensures InstancesAscend(WithStatusOf(rows, containerId, status))
  {
    if rows != [] {
      var s, rest := WithStatusOf(rows, containerId, status), WithStatusOf(rows[1..], containerId, status);
      StatusKeepsInstanceOrder(rows[1..], containerId, status);
      forall r | r in rest
        ensures rows[0].id < r.id
      {
        var q := RowBeforeUpdate(rows[1..], containerId, status, r);
      }
      assert s[0].id == rows[0].id && s[1..] == rest;
    }
  }

  lemma UpdatedRow(rows: seq<Instance>, containerId: nat, status: Status, q: Instance)
    requires q in rows
    ensures (if q.containerId == containerId then q.(status := status) else q) in WithStatusOf(rows, containerId, status)
  {
    var i :| 0 <= i < |rows| && rows[i] == q;
    assert WithStatusOf(rows, containerId, status)[i] == if q.containerId == containerId then q.(status := status) else q;
  }

  lemma {:induction false} SelectionAscends(rows: seq<Instance>, status: Status)
    requires InstancesAscend(rows)
    ensures InstancesAscend(WithStatus(rows, status))
  {
    if rows != [] {
      SelectionAscends(rows[1..], status);
      var rest := WithStatus(rows[1..], status);
      assert ([rows[0]] + rest)[1..] == rest;
    }
  }

  /** The row that a status update made `r` from. */
  lemma RowBeforeUpdate(rows: seq<Instance>, containerId: nat, status: Status, r: Instance) returns (q: Instance)
    requires r in WithStatusOf(rows, containerId, status)
    ensures q in rows && r == if q.containerId == containerId then q.(status := status) else q
  {
    var s := WithStatusOf(rows, containerId, status);
    var i :| 0 <= i < |s| && s[i] == r;
    q := rows[i];
  }

  lemma StatusKeepsInstanceTable(rows: seq<Instance>, nextId: nat, containerId: nat, status: Status)
    requires InstanceTable(rows, nextId)
    ensures InstanceTable(WithStatusOf(rows, containerId, status), nextId)
  {
    StatusKeepsInstanceOrder(rows, containerId, status);
    var after := WithStatusOf(rows, containerId, status);
    forall r | r in after
      ensures r.id < nextId
    {
      var q := RowBeforeUpdate(rows, containerId, status, r);
    }
    forall r, s | r in after && s in after &&
                  (r.containerId == s.containerId || (r.owner == s.owner && r.challengeRef == s.challengeRef))
      ensures r == s
    {
      var q := RowBeforeUpdate(rows, containerId, status, r);
      var q' := RowBeforeUpdate(rows, containerId, status, s);
    }
  }

  /** `next(x for x in candidates if x not in used)`. */
  function FirstNotIn(candidates: seq<Address>, used: set<Address>): Option<Address> {
    if candidates == [] then None
    else if candidates[0] !in used then Some(candidates[0])
    else FirstNotIn(candidates[1..], used)
  }

  lemma {:induction false} FirstNotInIsFree(candidates: seq<Address>, used: set<Address>)
    ensures var r := FirstNotIn(candidates, used);
            if r.Some? then r.value in candidates && r.value !in used
            else forall a :: a in candidates ==> a in used
    ensures var r := FirstNotIn(candidates, used);
            r.Some? ==> exists i :: 0 <= i < |candidates| && candidates[i] == r.value && AllIn(candidates[..i], used)
  {
    if candidates != [] && candidates[0] !in used {
      assert candidates[0] == candidates[0] && AllIn(candidates[..0], used);
    } else if candidates != [] {
      FirstNotInIsFree(candidates[1..], used);
      var r := FirstNotIn(candidates[1..], used);
      if r.Some? {
        var i :| 0 <= i < |candidates[1..]| && candidates[1..][i] == r.value && AllIn(candidates[1..][..i], used);
        assert candidates[..i + 1] == [candidates[0]] + candidates[1..][..i];
        assert candidates[i + 1] == r.value && AllIn(candidates[..i + 1], used);
      }
    }
  }

  ghost predicate AllIn(s: seq<Address>, used: set<Address>) {
    forall a :: a in s ==> a in used
  }

  /** Of ascending candidates it is the lowest. */
  lemma FirstNotInIsLowest(candidates: seq<Address>, used: set<Address>)
    requires forall i, j :: 0 <= i < j < |candidates| ==> candidates[i] < candidates[j]
    ensures var r := FirstNotIn(candidates, used);
            r.Some? ==> forall a :: a in candidates && a < r.value ==> a in used
  {
    FirstNotInIsFree(candidates, used);
    var r := FirstNotIn(candidates, used);
    if r.Some? {
      var i :| 0 <= i < |candidates| && candidates[i] == r.value && AllIn(candidates[..i], used);
      forall a | a in candidates && a < r.value
        ensures a in used
      {
        var j :| 0 <= j < |candidates| && candidates[j] == a;
        assert candidates[..i][j] == a;
      }
    }
  }
}
