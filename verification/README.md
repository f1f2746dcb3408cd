# A verified model of edo's isolation core

edo gives every participant of a capture-the-flag event ("owner": a user or a team) private
challenge containers. A root daemon hands out VPN peers, one /24 per owner, container addresses and
public ports, and rebuilds one iptables chain that decides who may reach whom. A CTFd plugin beside
it elects a scheduler leader, records flag finds, limits submissions and talks to the daemon over a
framed socket. This project models that logic in Dafny and proves what it promises.

`dafny verify dfyconfig.toml` checks everything.

| file | models |
|---|---|
| `Base.dfy`, `Ipv4.dfy`, `Names.dfy` | shared values; addresses, CIDR blocks and the fixed topology; container names |
| `Database.dfy` | the daemon's three SQLite tables as one class, with the schema's constraints |
| `Docker.dfy` | Docker: every call may fail, before or after it took effect |
| `Allocation.dfy` | what the octet, address and port allocators keep, on tables as values |
| `Containers.dfy` | spawn, release, teardown, reconcile, adopt |
| `Firewall.dfy`, `Iptables.dfy` | the rule compiler and its meaning; the kernel tables and `apply_firewall` |
| `Isolation.dfy` | who may reach whom, on the tables and in the kernel |
| `Runs.dfy`, `Daemon.dfy` | what each request does and what runs of them keep; the request handlers, start-up and the serving loop |
| `WireGuard.dfy`, `Reading.dfy` | the server config file against the peers table; reading numbers, addresses and the file back |
| `Lease.dfy` | leader election with any number of workers, interleaved statement by statement |
| `Submission.dfy` | flag finds and Solves rows, sequentially and interleaved |
| `RateLimit.dfy`, `Scoring.dfy`, `Framing.dfy` | the sliding window; decay and progress; length-framed messages |

## How the parts meet

`Containers.Consistent` (schema constraints, bridges in the hands of the octet's holder, rows and
containers in agreement) is kept by every daemon operation on every exit, and
`Allocation.WellAllocated` by every one but adoption, which keeps it when the containers it finds suit.
`Iptables.Kernel.ApplyFirewall` refines a plain rebuild; `Firewall.ChainMeaning` says what the rebuilt
list means and `Isolation` says the same about the tables. `Daemon.Server.Serve` runs any sequence of
requests and restarts, with any failures and any outside interference between them, and yields for every
turn the states before and after it: they stand in the relation `Runs.Effect` demands of that request, and
the state after is safe (`Runs.RunIsSafe`). `Runs.SubnetIsolation` and `Runs.EndToEndIsolation` read off the
kernel's decisions from such a state; `Runs.PeerStays`, `Runs.TrackedUntilGone` and
`Runs.AllocationOutlasts` say what outlasts whole runs.

The environment counts its failures: `Engine.faults` and `DatabaseManager.faults`, `Kernel.faults` and
`ServerConfig.faults` are the failed calls so far, `Engine.failed` those to stop, remove or look up one
container. A contract that excuses an outcome does so by a count that grew, so an operation that fails, or
leaves something undone, without a failed call is ruled out.

## What the proofs found

* A packet from a peer to another owner's subnet is not dropped by EDO_FORWARD: it falls through to
  the rules behind it (`PeerReachesOnlyItsOwner`). The way back is closed only towards the public
  interface.
* The spawn loop is described as retrying "with a fresh IP AND fresh ports"
  (daemon/edo_core/containers.py:351-358). It recomputes the address from the same rows, so every later
  round finds the address already tried: one call never issues a second create (`CreateWithRetry`).
* `_unhook_edo_from_all` does not look at failed deletions, and `_iptables_check` and `_chain_exists` read
  any failure as absent. One hook is left if and only if, in each candidate chain, stale hooks and tries lost
  to failures number at most five together (`OneHookIff`): a single failed check can leave two hooks
  (`FailedCheckLeavesTwoHooks`), and a failed lookup can hook FORWARD although DOCKER-USER exists. Neither
  changes a verdict of the chain that was hooked (`InstalledDecides`).
* The chain can drift from the tables (daemon/edo_core/network.py:293-296 says it cannot). The reconcile
  handler frees octets and a failed spawn grants one, both without a rebuild. Told from the state before:
  an error-free reconcile outdates the chain if and only if a peer's owner with a bridge has only rows marked
  running whose containers are gone (`HandleReconcile`); a failed spawn does if and only if it had a
  Dockerfile and its owner has a peer, no octet, and one is left (`FailedSpawnOutdatesIff`). Should another
  owner be granted the freed octet and the next rebuild fail, the old owner's peers reach the new owner's
  instances (`PeerReachesThroughChainOf`).
* Network reuse never looks at labels. After the loss of the database with bridges left behind, an owner
  gets another owner's bridge exactly when one stands under the octet it will be given
  (`EnsureOwnerNetwork`, `AskAfterLoss`).
* Adoption keeps the allocation invariant exactly when, beforehand, the owner of every untracked container
  holds an octet, every running one sits on that octet's bridge at an unused guest address, and their host
  ports are in range and unused (`AdoptUntracked`): if so, where no call fails; only if so, where all are
  adopted. After the loss of the database no owner holds one (`AdoptWithoutOctet`).
* Reconcile never looks at a row that is not marked running. A container that runs again behind such a row
  keeps its address while the allocator offers it; the address asked for is taken if and only if such a stray
  sits at the lowest one the rows leave free (`RequestedIsTakenIff`, `RestartedStaysStray`), and no later
  round of the spawn loop asks for another.
* The config file equals the peers table if and only if no add failed, after its block was appended, since
  the last removal that found its user (`HistoryKeepsConfig`). Removing the user whose add failed does not
  help: there is no row, so the file is not rewritten (`FailedAddSurvivesRemoval`).
* The native CTFd route decides on stale counts. Its decision is right if and only if it was not overtaken
  by another find of the same flag with one other flag missing; an overtaken one awards early
  (`NativeDecisionIsRightIff`, `OvertakenAwardsEarly`). A reset is undone if and only if it meets a request
  bound to award: past the progress count, or in the native solve of a challenge with several flags
  (`ResetIsUndoneIff`).
* A challenge without flags never gets a Solves row, and `_allocate_public_ports` with a count of zero
  always raises.

## Model

| member | source | states |
|---|---|---|
| Ipv4.ContainsIsRange | daemon/edo_core/network.py:40-49 | for every aligned block, the CIDR prefix match of section 3.1 of RFC 4632 accepts exactly the addresses from its base to its base plus size minus one |
| Ipv4.TopologyRanges | daemon/edo_core/network.py:40-55 | the VPN subnet, the pool and each owner subnet are valid blocks and match exactly their written ranges |
| Reading.VpnWritten | daemon/edo_core/network.py:40-41 | the VPN subnet and the server's address, written out, are 10.8.0.0/24 and 10.8.0.1 |
| Reading.PoolWritten | daemon/edo_core/network.py:44-54 | the pool is written 10.9.0.0/16, the subnet of octet k 10.9.k.0/24 and its gateway 10.9.k.1 |
| Reading.AddressReadsBack | daemon/edo_core/network.py:359-365 | a printed address is four decimal numbers below 256, and reading them back gives the address |
| Ipv4.HostIff | daemon/edo_core/network.py:359-365 | the hosts of a block are its addresses but the first and the last, or all of a /31 or /32 |
| Ipv4.SubnetsPartitionThePool | daemon/edo_core/network.py:51-54 | an address lies in at most one owner's /24, always inside the pool and never in the VPN subnet |
| Ipv4.IterSubnetHosts | daemon/edo_core/network.py:359-365 | the result is the lowest host address not excluded; the exhausted error means every host is excluded |
| Ipv4.OrderedSubnetHosts | daemon/edo_core/network.py:368-370 | exactly the unreserved hosts of the block, strictly ascending |
| Names.DecimalInjective | daemon/edo_core/containers.py:203 | different integers print differently, negative ones included |
| Reading.DecimalReadsBack | daemon/edo_core/containers.py:203 | a printed number consists of digits whose decimal value is the number |
| Names.SlugIsWords | daemon/edo_core/containers.py:193-194 | a slug is the lower-cased runs of letters and digits of the name, with one underscore between each two |
| Names.NumericName | daemon/edo_core/containers.py:197-203 | for a numeric challenge the name is edo_, the number, the owner's kind and the owner's id, joined by underscores |
| Names.SameNameIff | daemon/edo_core/containers.py:193-203 | two containers share a name if and only if slug of the challenge, owner kind and owner id all agree |
| Names.NumericNamesAreInjective | api/user.py:151 | with the plugin's numeric challenge references, different (challenge, owner) pairs never share a container name |
| Database.AppendKeepsPeerTable | daemon/edo_core/db.py:103-115 | a new username at an unused address keeps both UNIQUE constraints and the id order |
| Database.AppendKeepsInstanceTable | daemon/edo_core/db.py:130-146 | a row that collides with none keeps both UNIQUE constraints and the id order |
| Database.RemovalCount | daemon/edo_core/db.py:355-358 | deleting by container id deletes exactly one row |
| Database.FirstNotInIsFree | daemon/edo_core/db.py:188 | the candidate chosen is unused and all before it are used; none means all are used |
| Database.FirstNotInIsLowest | daemon/edo_core/db.py:188 | of ascending candidates it is the lowest unused one |
| Database.DatabaseManager.AllocatePeer | daemon/edo_core/db.py:162-214 | the peer gets the first candidate no row uses; otherwise the address error, then the username error, each leaving the table unchanged; uniqueness kept |
| Database.DatabaseManager.RemovePeer | daemon/edo_core/db.py:216-219 | exactly the rows of that username go, in order, and the result says whether there was one |
| Database.DatabaseManager.PeersGroupedByOwner | daemon/edo_core/db.py:244-255 | each owner with a peer maps to exactly its peers' addresses in id order, no other owner appears |
| Database.AddressesOfMembers | daemon/edo_core/db.py:244-255 | an address is in an owner's group if and only if a peer row pairs them |
| Database.DatabaseManager.AllocateOctet | daemon/edo_core/db.py:258-292 | idempotent per owner; a new grant is the lowest unheld octet in 1-254; the error means all 254 are held; octets stay injective |
| Database.DatabaseManager.FreeOctet | daemon/edo_core/db.py:302-308 | removes that owner's octet and nothing else |
| Database.DatabaseManager.AllOwnerOctets | daemon/edo_core/db.py:310-316 | lists exactly the held octets with their owners, ascending |
| Database.FindInstance | daemon/edo_core/db.py:360-369 | finds the row of one (owner, challenge) or proves there is none |
| Database.DatabaseManager.AddInstance | daemon/edo_core/db.py:320-353 | refused exactly on a colliding container id or (owner, challenge), and otherwise added unless the write itself failed, which is counted; an added row carries every argument; no other row changes |
| Database.DatabaseManager.RemoveInstance | daemon/edo_core/db.py:355-358 | the row of that container goes, the others stay in order, and the result says whether there was one |
| Database.DatabaseManager.UpdateInstanceStatus | daemon/edo_core/db.py:400-406 | only the status of that container's row changes; uniqueness and order kept |
| Database.CountForOwner | daemon/edo_core/db.py:392-398 | zero if and only if the owner has no row |
| Docker.Engine.CreateNetwork | daemon/edo_core/containers.py:306-311 | an existing name is refused; a failed call may still have created the bridge, and nothing else |
| Docker.Engine.RemoveNetwork | daemon/edo_core/containers.py:335-339 | success means the bridge existed, is gone and no running container was on it; a busy bridge is an error |
| Docker.Engine.CreateContainer | daemon/edo_core/containers.py:494-507 | a fresh id holds exactly the container asked for; a taken name is refused as a conflict; a failed call may still have created it |
| Docker.Engine.StopAndRemove | daemon/edo_core/containers.py:567-575 | gone or not found means gone; an error leaves at most a changed status |
| Docker.Engine.LiveIp | daemon/edo_core/containers.py:400-406 | without a failed call, the address of a container that is plugged in and on the bridge asked about, and none otherwise; a failed call gives none |
| Docker.Engine.LivePublishedPorts | daemon/edo_core/containers.py:409-420 | the host ports of a container that is plugged in, and none otherwise |
| Docker.Engine.ListManaged | daemon/edo_core/containers.py:619-622 | exactly the managed containers, in any order, or an API error |
| Allocation.RunningAddressesAreUnique | daemon/edo_core/db.py:383-390 | running rows of any two instances, of any owners, differ in address, lie in their owner's current /24 and are not the gateway |
| Allocation.StoppedRow | daemon/edo_core/db.py:400-406 | a row that stops running leaves allocation intact |
| Allocation.AddedRow | daemon/edo_core/containers.py:533-543 | a fitting row, its owner holding an octet and its address and ports valid and unused, keeps allocation |
| Allocation.AddedRowIff | daemon/edo_core/containers.py:632-646 | a new row leaves the tables well allocated if and only if they were and it fits |
| Allocation.AppendedRowsIff | daemon/edo_core/containers.py:623-649 | any number of appended rows keep allocation if and only if each fits among those ahead of it |
| Allocation.OctetGranted | daemon/edo_core/db.py:285-290 | granting an owner its first octet disturbs neither allocation nor the holding of bridges |
| Allocation.NetworkAdded | daemon/edo_core/containers.py:306-311 | a bridge created for the octet's holder keeps bridges and octets in agreement |
| Allocation.OctetFreed | daemon/edo_core/containers.py:328-340 | freeing an octet is harmless once its owner has no row and its bridge is gone |
| Allocation.PublicPorts | daemon/edo_core/containers.py:390-392 | the free public ports are exactly the unused ones from 40000 to 41000, strictly ascending |
| Allocation.GuestIff | daemon/edo_core/containers.py:344-348 | the addresses open to containers are the hosts of the owner's subnet but for its gateway |
| Allocation.PortBindingsAt | daemon/edo_core/containers.py:488 | distinct exposed ports each get their own host port, in order |
| Containers.EnsureOwnerNetwork | daemon/edo_core/containers.py:277-320 | the octets afterwards are exactly those before, with the lowest unheld one granted to an owner that held none, whether or not the call succeeds; the bridge returned exists, is routed and belongs to the owner if and only if, before the call, no foreign bridge stood under that octet, hence always in a consistent state; it fails only when no octet is left, the bridge is not routed, or Docker fails; all invariants kept on every exit |
| Containers.OpenBridge | daemon/edo_core/containers.py:289-318 | an existing bridge is reused if routed, whatever its labels, a missing one created; it fails only on an unrouted bridge or a failed call |
| Containers.AskAfterLoss | daemon/edo_core/containers.py:283-292 | from those tables the operation, when it succeeds, gives octet 1 and the first owner's bridge |
| Containers.LostDatabaseSharesBridge | daemon/edo_core/containers.py:283-292 | with the tables lost and bridge edo_o1 left by one owner, the next owner will be given octet 1, and the condition for its own bridge fails |
| Containers.ReleaseOwnerNetworkIfIdle | daemon/edo_core/containers.py:323-341 | the octet is freed only for an idle owner whose bridge was removed in this call; a missing or busy bridge keeps it; without API errors an idle owner's existing bridge and octet both go |
| Containers.FindNextOwnerIp | daemon/edo_core/containers.py:344-348 | the lowest guest address of the owner's /24 that no running row of the owner uses, never the gateway; the error means none is left |
| Containers.RequestedIsTakenIff | daemon/edo_core/containers.py:344-348 | a running container sits on the address asked for if and only if one that no running row records sits at the lowest address the rows leave free |
| Containers.RestartedStaysStray | daemon/edo_core/containers.py:597-598 | such a container whose row is not marked running stays one over every reconcile |
| Containers.UsedPublicPorts | daemon/edo_core/containers.py:367-379 | exactly the host ports published by tracked rows |
| Containers.AllocatePublicPorts | daemon/edo_core/containers.py:382-397 | the first `count` free ports ascending; raises if and only if fewer are free or the count is zero |
| Containers.TryCreate | daemon/edo_core/containers.py:491-522 | one create call is issued; success means created and started without any failed call; a conflict is told apart from other failures; on failure only containers of this name may be gone or new, and none of that name is left unless more than one call failed |
| Containers.CreateWithRetry | daemon/edo_core/containers.py:472-525 | over all eight rounds at most one create is issued, at the lowest free address with the lowest free ports; it gives up only when no address or too few ports are free or a call failed, with the error that failure calls for |
| Containers.ChoosePorts | daemon/edo_core/containers.py:482-488 | no ports unless the challenge is public and exposes some; then the lowest free ones in order, or the error exactly when too few are free |
| Containers.PublishedIsFresh | daemon/edo_core/containers.py:483-488 | the ports asked for are in range and disjoint from every tracked row's |
| Containers.PublishedIsLowest | daemon/edo_core/containers.py:483-488 | every exposed port of a public challenge and no other is bound, distinct ones apart, and every host port from 40000 up to a bound one is tracked or bound itself |
| Containers.NewRowKeepsAllocation | daemon/edo_core/containers.py:527-543 | the row a spawn records keeps the allocation invariant |
| Containers.ReadBack | daemon/edo_core/containers.py:527-530 | the address recorded is the one asked for; the ports recorded are exactly those the container reports at that moment if the challenge is public, and none otherwise; an exception means a call failed |
| Containers.RecordInstance | daemon/edo_core/containers.py:527-556 | the row recorded is backed by the container it names, on the owner's bridge at the recorded address and with exactly its reported ports; it is recorded unless a counted failure prevents it, and after a failed write the container is removed unless that fails too |
| Containers.CreateAndRecord | daemon/edo_core/containers.py:472-556 | success adds exactly one such row for a started container, every failure none, for a true reason and, an exception while reading back aside, with no new container left unless its removal failed too; other names' containers stay as they were |
| Containers.SpawnInstance | daemon/edo_core/containers.py:423-556 | idempotent per (owner, challenge) with nothing touched; a new row only on success, backed by its started container on the owner's routed bridge with exactly the ports that reports; every failure value names its own true reason, a failed call or a counted failed write among them, whatever else failed; octets are granted exactly as by the network step, no bridge but the owner's is new; at most one create; only containers of its own name touched, new ones labelled for this owner and challenge; all invariants kept on every exit |
| Containers.SpawnSparesTracked | daemon/edo_core/containers.py:513-516 | with the plugin's numeric challenges, the forced removal of whatever holds the name never hits the container of a tracked row |
| Containers.NamesAfterSpawn | daemon/edo_core/containers.py:494-507 | a spawn keeps rows and labelled containers named after their challenge and owner |
| Containers.NamesAfterAdoption | daemon/edo_core/containers.py:639-646 | so does adoption |
| Containers.OwnerOf | daemon/edo_core/containers.py:561-565 | finds the owner of a tracked container, or none exactly when it is untracked |
| Containers.Forget | daemon/edo_core/containers.py:577-580 | the row of that container goes, and with its owner's last row and an existing bridge also bridge and octet unless a call fails |
| Containers.OnlyFreedByRelease | daemon/edo_core/containers.py:577-588 | over any number of releases octets and bridges only go, each from an owner without rows |
| Containers.ReleaseInstance | daemon/edo_core/containers.py:559-580 | tracked or not, the container is gone afterwards, and so is its row, unless a call for that container failed; an exception means an unreachable Docker; no other row or container is touched; octet and bridge go only with their owner's last row, no other owner's ever |
| Containers.TeardownAll | daemon/edo_core/containers.py:583-588 | the count equals the rows removed, a row goes only with its container, only running rows go, and each of them unless a call for its own container failed; only their containers are touched; octets and bridges are only freed and only of owners left without rows |
| Containers.ReconcileRow | daemon/edo_core/containers.py:597-607 | one round skips on an error, leaves a row in step, copies the real status, or prunes a row whose container is gone |
| Containers.RoundFrees | daemon/edo_core/containers.py:602-605 | one round frees at most the octet of the row's owner, only for want of rows, and frees it if its bridge existed and no call failed |
| Containers.ReconcileAll | daemon/edo_core/containers.py:597-608 | the loop: rows, count, octets and bridges as for the whole operation, row by row whatever failed for others |
| Containers.Reconcile | daemon/edo_core/containers.py:593-608 | fails if and only if Docker is unreachable; the count equals the rows removed; a running row goes only if its container is gone, and otherwise stays or takes the container's status; rows not running are untouched; every row still running has a running container unless the lookup of that container failed; octets and bridges are only freed, and only of owners that had rows and have none left; without API errors an owner that had rows and a bridge holds its octet still if and only if it has a row still |
| Containers.AdoptOne | daemon/edo_core/containers.py:623-649 | a row is added only for a fully labelled container that was neither tracked nor blocked, with exactly its labels, ports, status and, unless a call failed, its address on its owner's bridge; allocation then holds if and only if it held and the row fits |
| Containers.AdoptUntracked | daemon/edo_core/containers.py:611-652 | existing rows stay, every new one was read off an untracked managed container, the count equals the rows added; after a return without a Docker failure every labelled managed container is tracked or its key is taken, and a second pass adds nothing; an unreachable Docker and a failed write are told apart, and each needs that failure; allocation is kept if, before the call, every untracked container suits and no call fails, and, where all were considered, only if |
| Containers.SuitableAdoptionKeeps | daemon/edo_core/containers.py:632-646 | allocation survives if beforehand the owner of each untracked container holds an octet, each running one sits on that octet's bridge at an unused guest address, all host ports are in range and unused, and no two of them clash |
| Containers.KeptAdoptionWasSuitable | daemon/edo_core/containers.py:632-646 | and a complete adoption keeps it only then |
| Containers.NamedKeysDistinct | daemon/edo_core/containers.py:193-203 | containers named after challenge and owner never share both, so each untracked one gets its own row |
| Containers.AdoptWithoutOctet | daemon/edo_core/containers.py:632-646 | an untracked container whose owner holds no octet, as after the loss of the tables, makes adoption violate allocation whenever it returns without a Docker failure |
| Firewall.VerdictOfConcat | daemon/edo_core/network.py:245 | first match wins across concatenated lists |
| Firewall.AppendOwnerRules | daemon/edo_core/network.py:268-270 | the inner loop appends both accept rules of every peer of one owner |
| Firewall.BuildChainRules | daemon/edo_core/network.py:241-283 | fails if and only if some octet is outside 1-254, otherwise returns the specified list |
| Firewall.ChainMeaning | daemon/edo_core/network.py:241-283 | for every packet the list drops peer to peer, accepts exactly between a peer and its owner's subnet, then drops pool to pool and pool to the public interface, and lets all else fall through |
| Firewall.OrderIrrelevant | daemon/edo_core/network.py:266-270 | the order of owners and of an owner's peers, and repetitions, show in no verdict |
| Firewall.KeepFirstIsDistinct | daemon/edo_core/network.py:116-125 | check-then-append installs each rule once and no other |
| Firewall.RepeatedRuleIsDead | daemon/edo_core/network.py:116-118 | a rule already present decides no packet that reaches its repetition |
| Firewall.KeepFirstPreservesVerdict | daemon/edo_core/network.py:116-125 | leaving repetitions out changes no verdict |
| Firewall.ThinnedPreservesVerdict | daemon/edo_core/network.py:107-125 | nor does leaving out only some of them, as happens when a check fails and the rule is appended again |
| Firewall.PartialChainIsSafe | daemon/edo_core/network.py:320-327 | a list cut short by a failed append, whichever repetitions it holds, decides a packet only as the whole list would |
| Iptables.RemoveFirstHook | daemon/edo_core/network.py:128-136 | deleting a hook removes one hook and no foreign rule |
| Iptables.Kernel.Check | daemon/edo_core/network.py:108-113 | a rule found is there; one that is there is missed only by a failed probe, which is recorded |
| Iptables.Kernel.ChainExists | daemon/edo_core/network.py:139-144 | the same of a chain |
| Iptables.Kernel.InsertFirst | daemon/edo_core/network.py:310-313 | the rule comes first and the rest keeps its order; a jump to a missing chain is refused |
| Iptables.Kernel.Flush | daemon/edo_core/network.py:315-318 | an existing chain is emptied, no other touched, or nothing changes |
| Iptables.Kernel.Append | daemon/edo_core/network.py:116-125 | on success the rule was found or is now last; a rule that is there is appended again only if the check failed; on failure the tables are unchanged |
| Iptables.Kernel.Delete | daemon/edo_core/network.py:128-136 | removes the first occurrence or changes no chain; it reports failure exactly when a deletion failed, and misses a rule that is there only by a failed probe |
| Iptables.Kernel.PreferredHook | daemon/edo_core/network.py:220-224 | a candidate chain: DOCKER-USER if it exists, else FORWARD, and FORWARD despite DOCKER-USER only after a failed lookup, which is counted |
| Iptables.UnhookedIsCleanIff | daemon/edo_core/network.py:227-237 | five tries clear a chain if and only if its hooks and the tries lost to failures number at most five |
| Iptables.Kernel.UnhookFrom | daemon/edo_core/network.py:232-236 | foreign rules keep their order, hooks fall by five tries less the lost ones, which are the failed deletions where no probe failed, and at most all five; other chains are untouched |
| Iptables.Kernel.UnhookEdoFromAll | daemon/edo_core/network.py:227-237 | the same in every candidate chain that exists, where a failed lookup may lose all five tries; no other chain touched |
| Iptables.Kernel.InstallRules | daemon/edo_core/network.py:320-327 | success installs the list with at most some repetitions left out, and with all of them if no command failed; after a failure the chain is empty, or such a prefix of the list if the rollback flush failed as well |
| Iptables.Kernel.ApplyFirewall | daemon/edo_core/network.py:286-338 | from any tables and with any commands and probes failing: foreign rules keep their order; success leaves the hook first in a candidate chain and the compiled list up to repetitions; without failures that chain is DOCKER-USER wherever it exists, FORWARD then carrying no hook where the tries suffice, and FORWARD otherwise, and each rule is there once; failure leaves the chain as it was, empty, or, only if the rollback failed too, cut short, and has a reason: no interface, no forwarding, an octet out of range, no chain to hook into, or a failed command |
| Iptables.FallThroughHooksAreInert | daemon/edo_core/network.py:227-237 | hooks that fall through change no verdict of the chain they stand in |
| Iptables.InstalledDecides | daemon/edo_core/network.py:308-327 | the chain that was hooked decides each packet as the compiled meaning does, or else as the foreign rules alone would |
| Iptables.OneHookIff | daemon/edo_core/network.py:227-237 | exactly one hook is left, and the tables equal a rebuild without history, if and only if in every candidate chain hooks and lost tries number at most five |
| Iptables.FailedCheckLeavesTwoHooks | daemon/edo_core/network.py:232-236 | one stale hook and one failed check leave two hooks although no deletion failed |
| Iptables.RebuiltTwice | daemon/edo_core/network.py:286-295 | the plain rebuild done twice is done once, and leaves one hook |
| Iptables.AppliedTwice | daemon/edo_core/network.py:286-338 | after a first apply that left one hook, a second one leaves the tables exactly as they are if and only if it hooks the same chain, installs the same list and the tries it lost leave room, as they do when nothing fails |
| Iptables.AppliedIsInstalled | daemon/edo_core/network.py:286-338 | a successful apply has installed the compiled list behind a first hook |
| Isolation.MeaningIsDecision | daemon/edo_daemon.py:72-77 | the chain compiled from the grouped tables means for every packet what the tables say |
| Isolation.InstalledIsEnforced | daemon/edo_daemon.py:72-81 | once installed, the kernel's chain gives every packet the tables' decision |
| Isolation.DecisionByZone | daemon/edo_core/network.py:254-283 | the whole decision by zone: VPN and pool never overlap; peer to peer and pool to pool dropped; VPN to pool and back accepted exactly where admitted; other pool traffic dropped towards the public interface; all else falls through |
| Isolation.PeerReachesOnlyItsOwner | daemon/edo_core/network.py:254-283 | peer to subnet k and back is accepted if and only if the peer's owner holds octet k; otherwise the packet falls through, or is dropped on its way to the public interface |
| Isolation.PeerReachesOnlyItsOwnersInstances | daemon/edo_core/network.py:260-270 | with allocation intact, peer to running instance is accepted if they have one owner and left alone otherwise; the way back is accepted, or dropped towards the public interface, or left alone |
| Isolation.PeerReachesThroughChainOf | daemon/edo_core/network.py:260-270 | through a chain built from older octets a peer reaches a running instance, and is reached by it, if and only if its owner held then the octet the instance's owner holds now |
| Isolation.KernelToSubnet | daemon/edo_core/network.py:266-269 | a hooked chain as a whole: peer to subnet accepted for its owner's, left to the foreign rules otherwise |
| Isolation.KernelFromSubnet | daemon/edo_core/network.py:270-281 | subnet to peer: accepted for its owner's, else dropped towards the public interface, else left to the foreign rules |
| Isolation.KernelSeparates | daemon/edo_core/network.py:257-277 | peer to peer and pool to pool never get past the hook |
| Isolation.DecisionsAgreeIff | daemon/edo_core/network.py:293-296 | two states of the tables decide every packet alike if and only if they grant the same pairs of peer address and octet |
| Isolation.ChainIsCurrentIff | daemon/edo_core/network.py:293-296 | a chain that enforces one state of the tables enforces another if and only if both grant the same |
| Isolation.SamePeersGrantIff | daemon/edo_daemon.py:184-197 | with the same peers: if and only if no peer's owner holds another octet, one more or one less |
| Isolation.FreedOctetOutdatesChain | daemon/edo_daemon.py:184-197 | freeing one octet changes a decision if and only if its owner still has a peer |
| Daemon.Server.RebuildFirewall | daemon/edo_daemon.py:72-81 | success means the kernel decides every packet as the tables say, without failed commands through DOCKER-USER wherever that exists and else through FORWARD; foreign rules keep their order either way; it fails only for want of an interface, forwarding or a chain, or on a failed command |
| Daemon.Server.HandleEnsurePeer | daemon/edo_daemon.py:89-115 | an existing peer is served with nothing changed; a new one, this user's, at a VPN address, for the right owner, in table and file, only together with a successful rebuild; an exception has a reason, and the peers are as before or have just that peer more; containers, octets and instances untouched |
| Daemon.Server.HandleRemovePeer | daemon/edo_daemon.py:118-124 | a removed peer is gone from table, config file and firewall alike, and no other; without a row nothing changes; an exception has a reason, table and file being as before or as after, together |
| Daemon.Server.HandleEnsureInstance | daemon/edo_daemon.py:137-174 | the instance served is the one there was, or the only new row, carrying what was asked for, with its container behind it, and the firewall is current; a failed spawn raises, for a reason, with rows and chains unchanged; tracked containers stay in place; peers untouched |
| Runs.FailedSpawnOutdatesIff | daemon/edo_daemon.py:137-174 | a spawn that leaves no row raised with the chain unchanged; if the chain was current, it is out of date then if and only if, before the call, there was a Dockerfile and the owner had a peer, no octet, and one left to get |
| Runs.UserNamesDiffer | daemon/edo_daemon.py:93 | different users get different peer names, each user_ and the printed id |
| Runs.GrantShowsIff | daemon/edo_core/containers.py:283-292 | granting the lowest free octet changes what a peer's owner holds if and only if the owner has a peer, no octet and one is left |
| Daemon.Server.HandleReleaseInstance | daemon/edo_daemon.py:177-181 | at most this row and this container go, with what their owner leaves idle, and both do unless a call for that container failed; a reply, whether or not the row was removed, comes with a current firewall; an exception needs an unreachable Docker or a reason for a failed rebuild |
| Daemon.Server.HandleReconcile | daemon/edo_daemon.py:184-197 | replies if and only if Docker is reachable, with the number of rows removed and the rows left; never a rebuild; no container, peer or chain changes; only a row whose container is gone is removed, and every row follows its container unless its lookup failed; a chain current before is current after if and only if no peer's owner lost its octet: where nothing fails if and only if, before the call, no peer's owner with a bridge had all its rows running and all their containers gone, and with failures too it goes out of date only for such an owner |
| Runs.OrphansLoseOctet | daemon/edo_core/containers.py:602-605 | an owner with a bridge whose containers are all gone loses its octet to an error-free reconcile |
| Runs.OnlyOrphansLoseOctet | daemon/edo_core/containers.py:597-605 | and no other owner loses it to any reconcile, failures or not |
| Daemon.Server.HandleKillSwitch | daemon/edo_daemon.py:215-223 | only running rows go, each with its container, and each of them unless a call for its own container failed; a reply comes with a current firewall and the number of rows removed; an exception has a reason; peers untouched |
| Daemon.Server.Startup | daemon/edo_daemon.py:331-342 | it serves unless a write to the database failed, and then behind a current firewall unless the rebuild had a reason to fail; without failures on a reachable Docker every labelled container is adopted and every running row has its running container; consistency is kept on every exit; allocation survives if nothing fails and beforehand every untracked container suits, and in any case if every adopted row fits, hence if nothing was untracked |
| Daemon.Recover | daemon/edo_daemon.py:331-337 | adoption and reconciliation alone, with a new Docker client: no container changes, without failures on a reachable Docker everything is adopted, and every row left running has a running container unless its lookup failed; a complete adoption keeps allocation only if every untracked container suited |
| Daemon.Server.Dispatch | daemon/edo_daemon.py:273-281 | no daemon, no reply; every request has the effect of its own handler and no other; and after every request that leaves the chain as it was, a chain current before is current after if and only if the tables grant the same as before |
| Daemon.Server.Handle | daemon/edo_daemon.py:226-236 | each kind of request is answered by its own handler: the states before and after are in the relation that handler promises |
| Daemon.Server.ServeOne | daemon/edo_daemon.py:258-288 | one turn extends the recorded run by one event that has its request's effect and leaves a safe state |
| Daemon.Server.Serve | daemon/edo_daemon.py:359-364 | for every sequence of requests, starts, restarts, failures and outside interference, the run recorded is one of such events, answers the requests in order, and ends in the present state |
| Runs.RunIsSafe | daemon/edo_daemon.py:359-364 | in such a run every request has its own effect on the state it found and no other, and every reply leaves well-formed tables, bridges in the right hands and, after a rebuild, a kernel that decides as the tables say |
| Runs.PeerStays | daemon/edo_daemon.py:258-288 | over any run, whatever fails and whatever else is asked for, a peer stays, unchanged, as long as no request removes that user |
| Runs.TrackedUntilGone | daemon/edo_daemon.py:258-288 | after any turn a container that is there and was tracked before is still tracked |
| Runs.AllocationOutlasts | daemon/edo_daemon.py:331-364 | from a state where allocation holds it holds after every turn, as long as no start finds an untracked container |
| Runs.SubnetIsolation | daemon/edo_core/network.py:254-283 | after a reply that rebuilt the firewall, in every candidate chain it is hooked into first, for every peer and subnet and whatever the foreign rules: its owner's subnet both ways accepted, a foreign one left to the foreign rules, the way back from it dropped towards the public interface and otherwise left to them |
| Runs.EndToEndIsolation | daemon/edo_core/network.py:254-283 | where allocation holds too: a peer and a running instance of one owner reach each other; to a foreign instance the peer's packet is left to the foreign rules, and the packet back is dropped towards the public interface and otherwise left to them; two running instances never reach each other |
| WireGuard.HeaderRecovered | daemon/edo_core/wireguard.py:278-279 | whatever peer sections follow, splitting and stripping give back exactly the header |
| WireGuard.AppendIsRewrite | daemon/edo_core/wireguard.py:271-285 | appending a peer's block and rewriting the whole file give the same text |
| WireGuard.Render | daemon/edo_core/wireguard.py:280-285 | the text written is the header and the blocks of all other peers in id order |
| WireGuard.ServerConfig.Announce | daemon/edo_core/wireguard.py:232-247 | a completed announcement has appended exactly the block of the peer; a failed one that block or nothing |
| WireGuard.ServerConfig.Enrol | daemon/edo_core/wireguard.py:231-247 | the try block and its rollback: both row and block, or neither row nor, possibly, block |
| WireGuard.ServerConfig.AddPeer | daemon/edo_core/wireguard.py:201-249 | a bad key, no free address and a taken name are answered in that order and exactly then, with nothing changed; otherwise only a counted failure stops it; table and file make one step together: on success the row and block of one peer at the lowest free VPN address; on failure nothing, or an appended block without its row |
| WireGuard.ServerConfig.AddGeneratedPeer | daemon/edo_daemon.py:96-101 | adds one row with the given owner, name and keys at a VPN address, or none, and none only for a taken name, no free address or a counted failure |
| WireGuard.ServerConfig.RemovePeer | daemon/edo_core/wireguard.py:252-268 | a completed removal leaves the file exactly in step with the table, whatever it held before; one without a row touches neither; a failing one, counted, leaves both as before or both as after, since the client's own file goes last |
| WireGuard.HistoryKeepsConfig | daemon/edo_core/wireguard.py:225-285 | after any history of adds, failed adds and removals the header is intact, and the file equals the table's text if and only if no add failed since the last removal that found its user |
| WireGuard.FailedAddSurvivesRemoval | daemon/edo_core/wireguard.py:252-255 | removing the very user whose add failed leaves the stale block |
| WireGuard.InitialConfigIsPlain | daemon/edo_core/wireguard.py:119-126 | the file written at initialisation is a header that every later rewrite recovers |
| Reading.InitialConfigReadsBack | daemon/edo_core/wireguard.py:119-126 | that file is, line by line, the server's section: its address on the VPN, its port and its key |
| Reading.ConfigReadsBack | daemon/edo_core/wireguard.py:271-285 | reading the peer sections of a file in step with the table gives the name, key and address of every peer, in order, and nothing else |
| Lease.LeaseSafety | scheduler.py:97-135 | over every interleaving of any number of workers: successive grants of different holders have disjoint closed intervals, expiries never fall, the row carries the last grant, only the first grant is an INSERT |
| Lease.DisjointGrants | scheduler.py:97-135 | no moment lies in the intervals of two different holders |
| Lease.ExpiryNeverFalls | scheduler.py:109-118 | along any continuation the row stays and its expiry never falls |
| Lease.AttemptWithinLeaseLoses | scheduler.py:109-123 | another worker's attempt that read its clock within the lease never wins, whatever happens meanwhile |
| Lease.HolderStays | scheduler.py:69-79 | stability: over any interleaving in which every other worker reads its clock within the lease of that moment, the holder stays and every grant is its own |
| Lease.UpdateRenews | scheduler.py:109-118 | the holder's UPDATE renews, expired or not, never to an earlier expiry |
| Lease.ExpiredLeaseIsTakenOver | scheduler.py:109-118 | a worker read its clock past the expiry: whatever runs before its UPDATE, afterwards the lease has been granted anew, and the UPDATE wins, for at least ten seconds, if and only if no lease granted meanwhile reaches its reading |
| Lease.HolderRenews | scheduler.py:69-79 | over any run in which the others read within the lease, no attempt of the holder fails and each of its UPDATEs extends the lease to its reading plus its duration |
| Lease.LeaseTable.TryAcquire | scheduler.py:97-135 | without interference: won if and only if the row is absent, expired or already held, and then the row is this worker's until exactly the larger of ten and the requested seconds from its reading |
| Lease.GrantLasts | scheduler.py:107 | every grant of every interleaving lasts exactly the larger of ten and the requested seconds from the reading of its worker's clock |
| Lease.UndisturbedAttempt | scheduler.py:97-135 | the four interleavable statements run alone have exactly the effect of the whole attempt |
| Submission.Progress.RecordFlagFind | challenge_type.py:277-302 | the find is there afterwards, once, and no other changes |
| Submission.Progress.InsertSolve | challenge_type.py:305-322 | at least one row afterwards, none added to an existing one |
| Submission.Progress.SubmitFlag | api/user.py:300-375 | answers and rows for every case of limit, empty, wrong, repeated and new; one Solves row if and only if every flag is found, none for a challenge without flags |
| Submission.Progress.NativeAttempt | challenge_type.py:200-250 | solved if and only if the submitted flag completes the set, the rest is logged as a fail; the same invariant is kept |
| Submission.Progress.Reset | api/admin.py:180-199 | both tables are emptied together and the invariant kept |
| Submission.AdvanceKeepsInv | api/user.py:345-375 | one statement of one request keeps: no early award, and a complete set has its row or a request that will check for it |
| Submission.OrderlyRunKeepsInv | api/user.py:345-375 | that invariant holds after every orderly interleaving of submissions, native attempts and resets |
| Submission.SubmitOnlyIsOrderly | api/user.py:300-375 | every interleaving through the plugin's own route is orderly |
| Submission.AwardedIffComplete | api/user.py:364-369 | when all requests have finished, a Solves row exists if and only if every flag is found: for any interleaving of submissions, and any orderly one with attempts and resets |
| Submission.NativeDecisionIsRightIff | challenge_type.py:224-228 | the native decision is right if and only if it is not overtaken by another find of its flag with one other flag missing |
| Submission.OvertakenAwardsEarly | challenge_type.py:224-238 | an overtaken decision inserts a Solves row while a flag is missing |
| Submission.OvertakingHappens | challenge_type.py:216-228 | a concrete interleaving of two requests reaches an overtaken decision |
| Submission.UndisturbedSubmit | api/user.py:352-369 | the six statements of a submission run alone do what the sequential route promises |
| Submission.UndisturbedNative | challenge_type.py:200-238 | the six statements of a native attempt run alone do what the sequential route promises |
| Submission.ResetIsUndoneIff | api/admin.py:188-199 | a reset keeps the invariant if no request is bound to award; one that is, past the progress count or in the native solve of a challenge with several flags, undoes the reset by an early award |
| Submission.ResetKeepsInv | api/admin.py:188-199 | a reset that meets no such request keeps: no early award, none lost |
| RateLimit.Limiter.Check | decorators.py:26-44 | the answer and the new bucket for every bucket, limit and window, including the error at a limit below one; other keys untouched |
| RateLimit.LimiterInvariant | decorators.py:35-43 | over any history the bucket holds exactly the admissions not older than the last cutoff, at most `limit` of them |
| RateLimit.WindowBound | decorators.py:26-44 | every closed interval of the window's length contains at most `limit` admitted calls of the whole history |
| RateLimit.RetryAfterIsHonoured | decorators.py:39-41 | a caller refused after any history, if every call in between was refused, is admitted after the wait it was told, and never one second or more before it |
| RateLimit.NoLimitNoAdmission | decorators.py:38-41 | with a limit below one nobody is ever admitted: every call raises |
| Scoring.RoundIff | challenge_type.py:348 | rounding returns the one nearest integer, the even one of two |
| Scoring.DynamicValueBounds | challenge_type.py:339-348 | the value starts at the initial one, stays between minimum and initial, and is the minimum from `decay` solves on |
| Scoring.DynamicValueOnLine | challenge_type.py:339-348 | until `decay` solves the value is the whole number nearest to the straight line from initial to minimum, the even one of two |
| Scoring.ColumnsCount | challenge_type.py:342-344 | an initial value of zero or none gives way to the challenge's own, a missing minimum counts as zero, a decay below one as one |
| Scoring.DynamicValueFalls | challenge_type.py:339-348 | more solves never make a challenge worth more |
| Scoring.PercentBounds | challenge_type.py:358-377 | the percentage lies in 0-100, grows with each find, and is 100 on completion if and only if the total weight is positive |
| Scoring.PercentIsShare | challenge_type.py:358-377 | the percentage of any set of finds is, in tenths, the whole number nearest to their share of all weights, the even one of two |
| Scoring.TotalSplits | api/admin.py:128-140 | the SQL sum plus 100 per flag without a row is the default-100 sum of the display |
| Scoring.AdminAndDisplayAgree | api/admin.py:128-140 | the admin check accepts exactly the weights that the display totals to 100, or no flags at all |
| Framing.PackedUnpacks | daemon_client.py:58 | the big-endian length header is read back as written |
| Framing.HeadersInOrder | daemon_client.py:58 | headers are most significant byte first: the headers of two lengths compare as the lengths at the first byte in which they differ |
| Framing.LimitsOfBothEnds | daemon/edo_daemon.py:266-271 | a framed request is received exactly up to 4 MiB, a framed response exactly up to 16 MiB |
| Framing.Socket.RecvExact | daemon/edo_daemon.py:240-247 | however `recv` splits the stream, exactly the next n bytes, or the short-read error at its end |
| Framing.Socket.RecvFramed | daemon_client.py:174-179 | however the stream is split, the outcome and the unread rest are those of decoding it whole |
| Framing.FramingRoundTrip | daemon_client.py:52-65 | a payload within the limit is received as sent with nothing beyond it read; a longer one is refused on its header |
| Framing.DecodesIffFramed | daemon/edo_daemon.py:266-271 | a message is received if and only if its frame, within the limit, is what the stream starts with |

## Assumptions of the model

* One daemon request runs at a time, and the database's lock makes each method one transaction. The retry
  loops of `allocate_octet` and `allocate_peer` answer a clash between connections and cannot fire then.
* Docker never reuses a container id, never holds two containers of one name, refuses a duplicate network
  name, binds the host ports asked for, and reports a container on one bridge. Every call may fail before
  or after its effect, and between requests containers and networks may disappear or change state.
* The host begins with no edo network and no database, as in `Daemon.Server.constructor`; every later start
  finds what is there. Container labels carry a numeric owner id, and containers keep name and labels.
* A container reports its address and its host ports exactly while it is running or paused.
* A foreign rule accepts, drops or passes a packet on. A foreign `RETURN`, the usual last rule of DOCKER-USER,
  and a jump to a chain of others are not expressed; since the hook comes first, they could only concern
  packets that EDO_FORWARD lets through.
* Limits, windows, flag sets and weights do not change during a run. The limiter's clock readings do not
  decrease in the order in which calls take its lock, and a lease worker's own clock does not run backwards.
* Decay and percentages are exact rationals, clock readings exact numbers.
* The owner kinds are CTFd's "user" and "team"; challenge names are ASCII; the public port range is the
  default 40000-41000; a private key is base64. For reading the config file back, names and keys hold no
  line break.

## Left out

- `scheduler.py` sweep and reconcile, `kill_switch` of `api/admin.py`, plugin-side instance routes and `extend_instance`: loops over CTFd rows around daemon calls, without a further invariant.
- Concurrent daemon requests: the handlers run on threads, the model runs them one after the other.
- EDO_INPUT, firewalld, `remove_firewall`, missing binaries, key generation, image builds, live `wg set` calls: foreign effects with no state of their own here.
- Docker's own chains, NAT, and traffic inside one bridge: the proofs stop at the chain EDO_FORWARD is hooked into.
- `ping`, `container.inspect`, `wg.render_config` and unknown methods: they change nothing and rebuild nothing.
- JSON, SO_PEERCRED, ini parsing, flag comparison: library behaviour; a flag match is a parameter.
- Partial writes of the config file, and failing database transactions other than in `add_instance`.
- Duplicate Solves rows of interleaved requests: nothing in the plugin prevents them, so only their presence is claimed; at most one row is proved for requests run one after the other.
- Containers.AdoptUntracked: keeps `Consistent` always but `WellAllocated` only where the untracked containers suit, because an adopted container may lack an octet or an address.
- Daemon.Server.Startup: allocation is promised only if the untracked containers suit or every adopted row fits; reconciliation may also restore it, which is not claimed.
- A rebuild that fails part of the way: the chain is as it was, empty or cut short, and hooked or not; no decision is claimed for that state beyond `PartialChainIsSafe`.
