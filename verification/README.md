# ZTM mesh gateway: a verified model

ZTM is a mesh gateway. Every node owns a set of versioned services, gossips them in signed envelopes, keeps QUIC links
to its peers, and routes client requests to a node that serves them. This project models that logic in Dafny and proves
what holds in every run, interleaving or input. `dafny verify dfyconfig.toml` checks all of it.

The code that changes state in place is modelled by classes and methods with loops (`Registry.dfy`, `GossipDelegate.dfy`,
`MeshNode.dfy`, `Policies.dfy`, `JoinTokens.dfy`, `RelayCopy.dfy`, `PeerStats.dfy`, `Socks5.dfy`, `Resolver.dfy`,
`Router.dfy`, `Gateway.dfy`, `VirtualIPs.dfy`). Each method is proved against functions on values; the laws and the
state machines over whole runs are stated about those functions (`RegistryModel.dfy`, `RegistryLaws.dfy`,
`RegistryRuns.dfy`, `Envelope.dfy`, `Announcements.dfy`, `GossipWorld.dfy`, `GossipTimes.dfy`, `GossipAnswers.dfy`,
`GossipWitnesses.dfy`, `MeshModel.dfy`, `MeshCycles.dfy`, `Failover.dfy`).
`Text.dfy`, `Sorting.dfy` and `Bytes.dfy` hold string order, decimal numerals and sorting.

## How the model reads the program

- Time is an integer number of nanoseconds passed into each step; 0 is the unset time. A merge reads the clock once.
- Every sort is some sorted permutation; every loop over a map visits the keys in an arbitrary order.
- Signatures, JSON and protobuf are abstract and injective. The network may lose, repeat, reorder, delay and invent
  messages, but cannot make a signature under a member's key that the member did not make.
- A member's metadata carries its real public key. Each mutex-protected section is one atomic step.
- Error rates are real numbers; version counters, byte counters and lifetimes keep their 64-bit wrap-around.

## Where the code differs from what one would expect

The model follows the code. These are the places where a plain statement is false, and what is proved instead.

- An entry announced again at an equal version is skipped before it is marked active, and the sweep then drops it. Merging
  a snapshot twice is not merging it once; `MergeThreeTimesIsOnce` and `RedeliveryComplements` give the period of two.
  Registrations push their snapshot twice, so a receiver of both copies in a row ends without exactly the services that
  were new to it (`SecondCopyForgets`).
- A deregistration pushes its tombstone alone, twice, and queues the snapshot of what is left. The tombstone makes every
  receiver drop all services of that node (`WithdrawalForgetsOwner`) until a snapshot arrives (`SnapshotRestores`).
- Keys join node id and name with "/". Merging one owner's state can touch another owner's entries exactly when one id
  continues the other after a "/" (`InterferenceExactly`).
- A restart resets version counters. Agreement on (owner, name, version) holds between registrations that no restart
  separates (`SameVersionSameService`), and one restart is enough to break it (`RestartEndsAgreement`).
- Announcing a service again sends the time of its registration, so by gossip alone it is gone everywhere 90 seconds after
  that (`EntriesKeepTheirTime`). A second-hand answer starts the 90 seconds anew, and a service can outlive its owner's
  withdrawal for any length of time (`ServiceOutlivesWithdrawal`).
- Policy bundles do not always converge: a bundle of one cluster shuts out those of another. `ConvergesExactly` says when
  every delivery order ends alike, `TwoClustersDiverge` and `SameVersionDiverges` that its conditions are needed.
- The comments at internal/policy/policy.go:24 and internal/policy/policy.go:122 promise default deny. The code allows
  everything when both lists are empty and denies everything when only deny patterns exist; `x.*` matches any value
  that starts with `x` (`MatchMeaning`, `InstalledMeaning`).
- A peer address that fails to resolve leaves the dial mark set (`ResolutionStrands`), and the peer is never dialled again
  (`StuckForever`).
- Two services can share a virtual address, and then the last one asked for takes the traffic (`NamesCollide`,
  `RoundTripExactly`).
- A time to live too long for 64-bit nanoseconds wraps: it is honoured exactly up to 9,223,372,036 seconds
  (`TtlHonouredExactly`); above, an entry may never expire or expire almost at once (`OverlongTtls`).
- `GetBroadcasts` takes its limit, a number of octets, as a number of messages. A batch stays within it exactly when the
  whole queue does (`BatchFitsExactly`).

## Model

| member | source | states |
|---|---|---|
| `RegistryClass.Registry.constructor` | internal/registry/registry.go:45-53 | A new registry is empty and carries the node's id. |
| `RegistryClass.Registry.RegisterLocal` | internal/registry/registry.go:56-75 | The entry returned and stored carries the given name, host, port, labels and time, the node's id, the next 64-bit counter value and its id text; nothing else changes. |
| `RegistryClass.Registry.DeregisterLocal` | internal/registry/registry.go:78-96 | Removes a known name, bumps its counter and returns a tombstone with that version and its id text; an unknown name changes nothing. |
| `RegistryClass.Registry.LocalNames` | internal/registry/registry.go:99-109 | Exactly the local names, strictly sorted, whatever the map order. |
| `RegistryClass.Registry.LocalSnapshot` | internal/registry/registry.go:112-122 | Exactly the local entries, strictly sorted by name. |
| `RegistryClass.Registry.MergeRemoteState` | internal/registry/registry.go:130-171 | Refines the value-level merge: undecodable data is refused, own and anonymous states are ignored, else insert loop and sweep. |
| `RegistryClass.Registry.DropInactive` | internal/registry/registry.go:162-169 | The sweep, in any order of keys, removes exactly the owner's unmarked entries. |
| `RegistryClass.Registry.List` | internal/registry/registry.go:185-208 | Every live service exactly once, strictly sorted by (name, node id), and the table is pruned. |
| `RegistryClass.Registry.FindByName` | internal/registry/registry.go:174-182 | Exactly the live instances of the name, strictly sorted. |
| `RegistryClass.Registry.Prune` | internal/registry/registry.go:211-223 | Removes exactly the expired entries and returns their number. |
| `RegistryClass.ResolveLocal` | internal/proxy/resolve.go:11-18 | Succeeds exactly for names in the local map, with that entry's host and port. |
| `RegistryLaws.MergeIgnores` | internal/registry/registry.go:135-137 | States without an owner and the node's own are ignored. |
| `RegistryLaws.MergeStores` | internal/registry/registry.go:142-169 | Which announced names a node holds after a merge, and every field of what it holds. |
| `RegistryLaws.MergeKeepsRest` | internal/registry/registry.go:162-169 | Under every other key exactly the entries of other owners stay, as they were. |
| `RegistryLaws.MergeEquation` | internal/registry/registry.go:142-169 | For unique names: other owners' entries are kept, and the owner's slice becomes exactly the entries with non-zero TTL that were new or strictly newer. |
| `RegistryLaws.FreshSliceHas` | internal/registry/registry.go:143-160 | Each announced name is in that slice, as stamped by the receiver, exactly when it is alive and new or strictly newer. |
| `RegistryLaws.TombstonesEmptyTheSlice` | internal/registry/registry.go:144-147 | A tombstone-only or empty message empties the owner's slice and touches nothing else. |
| `RegistryLaws.DeliveryAt` | internal/registry/registry.go:142-169 | What one delivery of a tombstone-free snapshot leaves under each of its names. |
| `RegistryLaws.RedeliveryComplements` | internal/registry/registry.go:154-168 | A second delivery keeps exactly the names the first dropped. |
| `RegistryLaws.MergeThreeTimesIsOnce` | internal/registry/registry.go:142-169 | Merging one snapshot three times, at any instants, equals merging it once. |
| `RegistryLaws.SecondCopyForgets` | internal/agent/agent.go:343-354 | A receiver of both copies of a pushed snapshot ends without exactly the announced services that were new to it. |
| `RegistryLaws.SlashFreeIsSeparate` | internal/registry/registry.go:233-235 | Ids without "/" never share a key. |
| `RegistryLaws.CollisionMeansNested` | internal/registry/registry.go:233-235 | Two owners share a key only if one id continues the other after a "/". |
| `RegistryLaws.NestedOwnersInterfere` | internal/registry/registry.go:225-235 | For every node and every nested pair of other ids, a run leads to a state in which one owner's message damages the other's slice. |
| `RegistryLaws.InterferenceExactly` | internal/registry/registry.go:130-171 | At a node in a reachable state some message of one owner can change another's slice if and only if both ids are non-empty and not the node's own, and one continues the other after a "/". |
| `RegistryRuns.AlwaysValid` | internal/registry/registry.go:56-223 | In every run each remote key is the key of its entry and no remote entry carries the node's own id. |
| `RegistryRuns.ExpiryExactly` | internal/registry/registry.go:149-197 | Within the 64-bit range an entry expires exactly when more than its time to live has passed; zero and negative ones never do. |
| `RegistryRuns.TtlHonouredExactly` | internal/registry/registry.go:149-197 | A positive time to live is honoured at every instant if and only if it is at most 9,223,372,036 seconds. |
| `RegistryRuns.NeverExpiresExactly` | internal/registry/registry.go:195-195 | An entry never expires if and only if its wrapped lifetime is not positive. |
| `RegistryRuns.LifetimeSign` | internal/registry/registry.go:149-149 | The wrapped lifetime is not positive exactly when the nanoseconds modulo 2^64 are zero or in the upper half. |
| `RegistryRuns.OverlongTtls` | internal/registry/registry.go:149-149 | One second above the range an entry never expires; one of about 584 years is over in less than a second. |
| `RegistryRuns.ListingUnique` | internal/registry/registry.go:185-208 | A listing is a function of state and instant. |
| `RegistryRuns.FoundUnique` | internal/registry/registry.go:174-182 | So is a lookup by name. |
| `RegistryRuns.ListingOrder` | internal/registry/registry.go:201-206 | A listing is ordered by name and within a name by node id. |
| `RegistryRuns.ListingContents` | internal/registry/registry.go:189-200 | It holds the node's own services and the unexpired remote ones, and nothing else. |
| `RegistryRuns.FoundOrder` | internal/registry/registry.go:174-182 | A lookup carries the name throughout and is ordered by node id. |
| `RegistryRuns.SnapshotOrder` | internal/registry/registry.go:120-120 | A snapshot is ordered by name. |
| `Text.LessMeaning` | internal/registry/registry.go:120-120 | Texts are ordered by their first difference, a prefix before its continuations. |
| `RegistryRuns.ListingIgnoresPruning` | internal/registry/registry.go:185-223 | Listing equals listing after pruning at the same instant. |
| `RegistryRuns.OwnEntriesAreLocal` | internal/registry/registry.go:185-208 | In a listing, the entries under the node's own id are exactly those of the local map. |
| `RegistryRuns.RunIsLogged` | internal/registry/registry.go:56-96 | In every run each counter is the number of announcements made for its name modulo 2^64, and each announcement carries its position and id. |
| `RegistryRuns.ServiceIDInjective` | internal/registry/registry.go:229-231 | A service id determines name and version, even when names contain "/" or "#". |
| `Text.DecimalDenotes` | internal/registry/registry.go:229-231 | The version text denotes the version, in decimal digits without leading zeros. |
| `RegistryRuns.IdsCoincideExactly` | internal/registry/registry.go:229-231 | Two announcements share an id if and only if name and position modulo 2^64 agree. |
| `RegistryRuns.IdsDistinct` | internal/registry/registry.go:56-96 | All ids emitted in one incarnation, registrations and tombstones, are distinct while each name was announced at most 2^64 times. |
| `Envelope.SealsExactly` | internal/gossip/envelope.go:22-50 | A payload is sealed exactly when there is a signer, a cluster, and a state of the signer's own named node; the envelope carries it with the signature over it. |
| `Envelope.OpensExactly` | internal/gossip/envelope.go:52-93 | A message opens to a state exactly when it is an announcement envelope of the cluster with that state of a named node, signed under the key held for it. |
| `Envelope.SealedOpensExactly` | internal/gossip/envelope.go:22-93 | A sealed state opens, to the same state, exactly in the same cluster at a holder of the signer's key. |
| `Envelope.OpenedWasSigned` | internal/gossip/envelope.go:52-93 | Whatever opens carries a signature over exactly that state under the key held for its owner. |
| `Announcements.AnswerKeepsCore` | internal/rpc/resolver.go:129-151 | Answering and reading an announcement loses nothing but the announce time. |
| `Announcements.AnnouncementRead` | internal/rpc/resolver.go:129-151 | How an announcement is read: first endpoint or none, announce time in seconds or now, all other fields as sent. |
| `GossipDelegate.Delegate.constructor` | internal/gossip/cluster.go:56-73 | A delegate starts with an empty queue and its own key. |
| `GossipDelegate.Delegate.QueueStateBroadcast` | internal/gossip/cluster.go:159-180 | Appends the sealed snapshot of the node's own services; one message for a node that can seal its own state, none for any other. |
| `GossipDelegate.QueueHolds` | internal/gossip/cluster.go:169-180 | The queued message opens to the snapshot wherever the signer's key is held. |
| `GossipDelegate.Delegate.GetBroadcasts` | internal/gossip/cluster.go:101-115 | Hands out the oldest messages up to the limit, counted in messages; none is lost, repeated or reordered. |
| `GossipDelegate.BatchFitsExactly` | internal/gossip/cluster.go:101-115 | For messages of two octets and more, a batch stays within its limit in octets if and only if the whole queue does, or the limit is not positive. |
| `GossipDelegate.BatchOverflows` | internal/gossip/cluster.go:101-115 | For every positive limit some queue makes a batch that exceeds it. |
| `GossipDelegate.Delegate.RememberPubKey` | internal/gossip/cluster.go:197-209 | Stores a parsable key under a non-empty id and changes nothing else. |
| `GossipDelegate.Delegate.IngestState` | internal/gossip/cluster.go:182-188 | Merges a message exactly when it opens; otherwise reports the error and leaves the registry alone. |
| `GossipDelegate.Delegate.PropagateState` | internal/gossip/cluster.go:326-342 | Seals the payload and sends one copy to every other member, or nothing when sealing fails. |
| `GossipDelegate.AddressedExactly` | internal/gossip/cluster.go:335-341 | A copy goes to every member but the node itself, and to nobody else. |
| `GossipDelegate.AddressedCounts` | internal/gossip/cluster.go:335-341 | Each other member is sent as many copies as it is listed. |
| `GossipDelegate.PushReaches` | internal/gossip/cluster.go:326-342 | A push of a node that can seal goes to each other member exactly once and to nobody else, in a message that opens to the state; any other node sends nothing. |
| `GossipDelegate.Delegate.PropagateRegistryState` | internal/agent/agent.go:343-354 | Queues the full snapshot once and pushes the given state twice. |
| `GossipDelegate.TwiceExactly` | internal/agent/agent.go:348-353 | Every message of a push is sent two times. |
| `GossipDelegate.RegisterService` | internal/agent/agent.go:444-450 | Registers, queues the snapshot once and pushes it twice. |
| `GossipDelegate.DeregisterService` | internal/agent/agent.go:452-468 | Removes a known service, queues the snapshot of the rest and pushes the tombstone alone, twice; an unknown one changes nothing. |
| `GossipDelegate.WithdrawalExactly` | internal/agent/agent.go:457-460 | A withdrawal is one tombstone of the node with the next version of the name. |
| `GossipDelegate.DeregisterAllLocal` | internal/agent/agent.go:331-341 | Withdraws every service in order of name: the pushes of each one's own tombstone, the snapshots queued, and an empty local map at the end. |
| `GossipDelegate.DeregisterAllAt` | internal/agent/agent.go:331-341 | Withdrawing names touches those names and no others, in entries and counters. |
| `GossipDelegate.WithdrawalForgetsOwner` | internal/registry/registry.go:142-169 | The tombstone a node pushes for any one service removes every entry of that node at the receiver and nothing else. |
| `GossipDelegate.SnapshotRestores` | internal/registry/registry.go:142-169 | The first snapshot after a withdrawal brings back every service it lists. |
| `GossipWorld.NextKeepsInv` | internal/registry/registry.go:56-171 | Every step of N nodes (own operations, sealing, delivery, second-hand merges, restarts) keeps all tables, drafts, signatures and answers backed by what owners announced. |
| `GossipWorld.RunsKeepInv` | internal/gossip/cluster.go:159-188 | So does every run, over a network that loses, repeats, reorders and invents messages. |
| `GossipWorld.SealedIsDelivered` | internal/gossip/cluster.go:182-188 | What a member seals can be delivered at any member that knows its key, and is merged into the registry there. |
| `GossipWorld.DraftsAndKeys` | internal/agent/agent.go:444-468 | Withdrawals and snapshots are drafted for sending, and learned keys are known. |
| `GossipWorld.IssuedWasRegistered` | internal/agent/agent.go:444-468 | Everything a node announced with a lifetime goes back to one of its registrations. |
| `GossipWorld.RemoteEntriesAreGenuine` | internal/rpc/resolver.go:108-151 | In every run each remote entry has the name, host, port and labels of a registration its owner made, with the version, id and lifetime that registration gave it. |
| `GossipWorld.LogPrefix` | internal/registry/registry.go:60-86 | Without a restart a node's announcements only accumulate. |
| `GossipWorld.OneIncarnation` | internal/registry/registry.go:56-75 | Two registrations of one incarnation never share name and version, within 2^64 announcements of the name. |
| `GossipWorld.SameVersionSameService` | internal/registry/registry.go:130-171 | Two nodes holding the same (owner, name, version) hold it from two registrations of the owner, and agree on id, host, port, labels and lifetime unless the owner restarted between those two. |
| `GossipWitnesses.RestartEndsAgreement` | internal/registry/registry.go:45-62 | The condition is needed: for any owner and two other members there is a run, with a restart of the owner, after which the two hold the same (owner, name, version) with different hosts. |
| `GossipTimes.EntriesKeepTheirTime` | internal/registry/registry.go:149-152 | In every run without second-hand answers each remote entry carries the time of the registration it comes from, so it is live exactly until 90 seconds after that, however often it is announced again. |
| `GossipTimes.StepHas` | internal/registry/registry.go:56-171 | Every other event carries any property of live services that registrations give them through all tables, drafts and signatures. |
| `GossipWitnesses.ServiceOutlivesWithdrawal` | internal/rpc/resolver.go:138-142 | The condition is needed: in a run with a clock that never goes back, two nodes that ask each other list a service for any length of time after its owner withdrew it. |
| `GossipAnswers.WorldAnswersAreSound` | internal/rpc/server.go:193-216 | In every run over members whose ids have no "/", the answers given and every table are of the shape the resolver relies on. |
| `MeshModel.StepKeepsTidy` | internal/mesh/transport.go:221-241 | Every atomic step keeps: table entries are watched connections of their id, and open connections are in the table. |
| `MeshModel.StepEffects` | internal/mesh/transport.go:80-97 | What each critical section does to marks, attempts, connections and the table. |
| `MeshModel.NoConnectionLeaks` | internal/mesh/transport.go:111-122 | In every interleaving each registered connection is closed or current; once monitors have run the table holds exactly the open connections, one per id. |
| `MeshModel.ShutdownClosesAll` | internal/mesh/transport.go:111-117 | In every interleaving a shutdown leaves every connection ever registered closed and the table empty. |
| `MeshModel.LateMonitorIsHarmless` | internal/mesh/transport.go:230-241 | A late monitor never evicts a newer connection nor any open one. |
| `MeshCycles.DialNeverReplaces` | internal/mesh/transport.go:221-228 | A dialler never finds an earlier connection under the id it dials. |
| `MeshCycles.NextKeepsMeshInv` | internal/agent/agent.go:374-442 | Every honest step of the whole mesh keeps the cycle discipline and the direction of connections. |
| `MeshCycles.OneCyclePerPeer` | internal/agent/agent.go:374-442 | In every honest interleaving: at most one dial cycle per peer, every cycle marked, marks only for larger ids, and a mark without a cycle exactly for a failed resolution. |
| `MeshCycles.StuckExactly` | internal/agent/agent.go:390-394 | A peer is stuck at a node if and only if one of the node's dials for it failed to resolve. |
| `MeshCycles.MarkedMeansInCycle` | internal/agent/agent.go:374-442 | In an honest interleaving, for a node and peer whose dials all resolved, marked is equivalent to being in a cycle. |
| `MeshCycles.StuckForever` | internal/agent/agent.go:390-394 | After a failed resolution the peer stays marked in every later state and is never dialled again. |
| `MeshCycles.ResolutionStrands` | internal/agent/agent.go:380-394 | For any node and any larger id an honest run of two steps leaves the peer marked without a cycle. |
| `MeshNode.Node.TryMark` | internal/agent/agent.go:375-388 | Starts a dial exactly for an unmarked, larger id with an address, and marks it. |
| `MeshNode.Node.DialFailed` | internal/agent/agent.go:395-401 | A failed dial clears its mark and ends the attempt. |
| `MeshNode.Node.Register` | internal/mesh/transport.go:221-228 | The new connection is open and current; one already there is closed; every other one stays as it was. |
| `MeshNode.Node.MonitorEvict` | internal/mesh/transport.go:231-236 | Leaves the table only if still current. |
| `MeshNode.Node.OnDisconnect` | internal/agent/agent.go:438-442 | Clears the peer's mark. |
| `MeshNode.Node.Close` | internal/mesh/transport.go:111-122 | Exactly the current connections are closed, in any order, and the table is empty. |
| `Router.Candidates` | internal/router/router.go:18-63 | A permutation of the routable instances, local first, remotes by (error rate, active streams, node id), by node id alone without loads. |
| `Router.CandidatesOrder` | internal/router/router.go:45-57 | Of two remote candidates the earlier has the smaller error rate, or the same and fewer active streams, or both the same and an id that is not greater; unknown loads count as zero. |
| `Router.LocalsFirst` | internal/router/router.go:59-62 | Every local candidate goes before every remote one. |
| `Router.CandidatesExactly` | internal/router/router.go:33-43 | Exactly the instances at the node itself or at a connected peer. |
| `Router.LookupCandidatesStrict` | internal/router/router.go:28-63 | Over a lookup the order is strict and the candidates are exactly the live routable instances of the name. |
| `Router.CandidatesDetermined` | internal/router/router.go:18-63 | Over a lookup the result is a function of registry state, peer set and loads, whatever the map order, peer order or sort instability. |
| `Gateway.HostNamesService` | internal/proxy/resolve.go:26-39 | A service is reached under its name and under its name in the mesh domain. |
| `Gateway.TargetNameExactly` | internal/tunnel/server.go:163-166 | The name in the request goes before the host, and the host loses its mesh domain. |
| `Gateway.RelayExactly` | internal/mesh/relay.go:42-81 | When a relay request is answered OK, and exactly when it is refused for which reason. |
| `Gateway.HandleStream` | internal/mesh/relay.go:42-81 | The handler answers OK exactly for a named, allowed service of its own local map whose backend answers; each refusal exactly for its reason; the only dial is that entry's backend. |
| `Gateway.OtherNodes` | internal/tunnel/server.go:187-198 | Collects the ids of other nodes in order of first appearance. |
| `Gateway.OtherIDsExactly` | internal/tunnel/server.go:187-198 | Those ids are distinct and exactly the other nodes among the instances. |
| `Gateway.LoadsForExactly` | internal/tunnel/server.go:185-202 | Loads are asked for exactly the other nodes found, once each, and not at all when there are none. |
| `Gateway.FindServices` | internal/tunnel/server.go:244-252 | Through the resolver or the registry, the result is a lookup in the registry as it then was; with no live instance at hand it is what the first helpful peer offers. |
| `Gateway.TryRelayLocal` | internal/tunnel/server.go:254-272 | Done exactly when dial and response write succeed; the response is attempted only after the dial. |
| `Gateway.OpenRelay` | internal/mesh/relay.go:89-115 | Opens exactly when the peer is linked, answered OK and the answer arrived. |
| `Gateway.OpensExactly` | internal/mesh/relay.go:89-115 | A candidate opens exactly when its backend answers the node, or when it is linked, holds and allows the service, reaches its backend, and its answer arrives. |
| `Gateway.FailOver` | internal/tunnel/server.go:216-241 | The loop's effects, in order, are those of trying the candidates one after another. |
| `Gateway.HandleClient` | internal/tunnel/server.go:163-242 | Refusals by their reason; otherwise a lookup, the loads of exactly the other nodes found, candidates in order and failover, on the node's registry, policy and resolver. |
| `Gateway.HandledDetermined` | internal/tunnel/server.go:163-242 | What a request did is a function of the registry looked up, the set of peers, the loads, the rules and the outcomes. |
| `Gateway.HandledFromLookup` | internal/tunnel/server.go:184-207 | Candidates of a handled request are live instances of the requested name, for an allowed name. |
| `Failover.LoopAnswers` | internal/tunnel/server.go:216-241 | For turns of any kind, the responses of the loop are those of the reduced failover. |
| `Failover.EffectHasTurn` | internal/tunnel/server.go:216-241 | Every effect of the loop belongs to one of its turns or is the final failure. |
| `Failover.RepliesExactly` | internal/tunnel/server.go:216-241 | The responses considered are those among the effects, each as often as it occurs. |
| `Gateway.RepliesAreAnswers` | internal/tunnel/server.go:216-241 | The responses of the loop depend only on which candidates open and which writes succeed. |
| `Gateway.ServeReplies` | internal/tunnel/server.go:163-241 | A refused request gets one response with its reason; any other one the responses of the failover. |
| `Gateway.ServeRefuses` | internal/tunnel/server.go:167-207 | Each refusal of the entry node with its reason. |
| `Gateway.AtMostOneLands` | internal/tunnel/server.go:163-241 | For every request and every outcome of dials, links and writes at most one response reaches the client. |
| `Gateway.FirstOpenAnswers` | internal/tunnel/server.go:163-241 | When writes succeed exactly one response is sent: the reason of a refusal, the first candidate in order that opens, or ROUTE_FAILED when none of a non-empty list does. |
| `Gateway.ServedIfAnyoneCan` | internal/tunnel/server.go:216-241 | When writes succeed, an allowed request with a candidate able to serve it is answered OK. |
| `Gateway.RouteFailedExactly` | internal/tunnel/server.go:163-241 | With failing writes too, ROUTE_FAILED is attempted exactly when an allowed request has candidates and every one is passed over. |
| `Gateway.OkComesFromAttempt` | internal/tunnel/server.go:216-239 | Every OK belongs to an attempt that opened. |
| `Gateway.OkMeansServedByOwner` | internal/mesh/relay.go:42-79 | For every handled request: an OK from node r means entry policy and r's policy allowed the service, r had it in its own local map, and the backend dialled was that entry's host and port. |
| `Gateway.HopsStartAtEntry` | internal/tunnel/server.go:209-239 | For every handled request: hops start at its entry node, end elsewhere and carry the resolved name, host, port and client, so relays cannot chain or loop; every dial goes to the dialling node's own entry. |
| `Gateway.CandidatesFromLookup` | internal/tunnel/server.go:203-203 | The handler's candidates are live instances of the requested name. |
| `Policies.MatchMeaning` | internal/policy/policy.go:140-151 | What each pattern matches, without slicing: "*", the value itself, "*.x", and "x.*" as any value starting with x. |
| `Policies.AllowedMeaning` | internal/policy/policy.go:51-72 | What rules allow: everything if permissive; else nothing a deny pattern matches, and of the rest what an allow pattern matches, or everything if there are no patterns. |
| `Policies.InstalledMeaning` | internal/policy/policy.go:51-138 | An installed bundle allows exactly what its global rules permit, said without lists. |
| `Policies.ApplyExactly` | internal/policy/policy.go:82-138 | Exactly which pushes are ignored, and what is in force after any other: its global patterns, version and cluster, never permissive. |
| `Policies.VersionsNeverDecrease` | internal/policy/policy.go:96-98 | Along every run of pushes the version in force never decreases. |
| `Policies.EndsAtHighest` | internal/policy/policy.go:82-138 | A run ends at the highest eligible version pushed, or where it started. |
| `Policies.PushesConverge` | internal/policy/policy.go:82-138 | For one cluster and distinct versions every delivery order with any duplicates ends in the same rules. |
| `Policies.ConvergesExactly` | internal/policy/policy.go:82-138 | For any messages and any starting rules: all delivery orders end alike if and only if the highest bundles that can land say the same and none of them can be shut out, told from clusters and versions alone. |
| `Policies.RunReached` | internal/policy/policy.go:82-138 | Along every run only bundles that can land are in force. |
| `Policies.FreshConvergesExactly` | internal/policy/policy.go:82-138 | From rules without a cluster, with distinct versions: if and only if the highest acceptable bundle names no cluster, or all acceptable ones name its cluster or none. |
| `Policies.TwoClustersDiverge` | internal/policy/policy.go:93-95 | Any two acceptable bundles of different clusters end differently in the two orders. |
| `Policies.SameVersionDiverges` | internal/policy/policy.go:96-98 | Of any two acceptable bundles with one version the first one stays. |
| `Policies.Policy.AllowService` | internal/policy/policy.go:35-40 | Appends an allow pattern. |
| `Policies.Policy.DenyService` | internal/policy/policy.go:43-48 | Appends a deny pattern. |
| `Policies.Policy.Allow` | internal/policy/policy.go:51-72 | Deny wins; without allow patterns everything passes exactly when there are no deny patterns. |
| `Policies.Policy.ApplyBundle` | internal/policy/policy.go:82-138 | Replaces the rules atomically when accepted, keeps them otherwise, and returns the version in force. |
| `JoinTokens.Store.constructor` | internal/jointoken/store.go:35-38 | A store starts with the file's tokens, or none. |
| `JoinTokens.OpenStore` | internal/jointoken/store.go:31-43 | Opening fails exactly without a directory or with an unreadable file; otherwise the store holds the file's tokens. |
| `JoinTokens.Store.Save` | internal/jointoken/store.go:109-118 | Success means the whole table is on disk; failure leaves old, new or unreadable data. |
| `JoinTokens.Store.Issue` | internal/jointoken/store.go:46-72 | Adds the token unused with the role and lifetime asked for, or "node" and an hour; returns it only after a successful save. |
| `JoinTokens.Store.Consume` | internal/jointoken/store.go:75-96 | Succeeds exactly for a known, unused token not past its expiry whose save lands; the token is used in memory either way. |
| `JoinTokens.JoinCluster` | internal/rpc/server.go:218-265 | Joins exactly when the token is spent on disk and every later check passes; the token is spent first. |
| `JoinTokens.RunsKeepInv` | internal/jointoken/store.go:46-118 | In every run memory and disk agree that consumed tokens are used. |
| `JoinTokens.TokensAreOneTime` | internal/jointoken/store.go:46-118 | Across creates, consumes, failed saves, crashes and reloads each token is consumed at most once, so joins never outnumber tokens created. |
| `JoinTokens.ConsumedInTime` | internal/jointoken/store.go:46-96 | In every run a consumed token was created at most the requested time before, or an hour if none was requested. |
| `JoinTokens.InTimeIsConsumed` | internal/jointoken/store.go:75-96 | A reported token that nobody tried and that is within its time is consumed whenever its write lands, across crashes and reloads; the node joins exactly when the other checks pass. |
| `JoinTokens.IssuedTokensSurvive` | internal/jointoken/store.go:46-72 | A reported token is known to every store that is up or opens later. |
| `RelayCopy.CopyConserves` | internal/metrics/relay.go:103-125 | For every pattern of reads, short writes and errors: an exact prefix is delivered and exactly its length is counted; complete with the source's error if all writes were taken, else a write's error. |
| `RelayCopy.CopyRefused` | internal/metrics/relay.go:103-125 | A copy refused at some turn delivers everything before and what that write took, and ends with the write's error or as a short write. |
| `RelayCopy.TakenOrRefused` | internal/metrics/relay.go:103-125 | Either every write is taken or one turn is the first refused. |
| `RelayCopy.CopyOnce` | internal/metrics/relay.go:106-123 | One turn over the reused buffer. |
| `RelayCopy.CopyTurn` | internal/metrics/relay.go:106-123 | A turn advances the copy by the bytes delivered and counted. |
| `RelayCopy.CopyCount` | internal/metrics/relay.go:103-125 | The loop delivers, counts and returns what the specification says; the result is the number of bytes delivered. |
| `RelayCopy.FirstError` | internal/metrics/relay.go:89-94 | The first result in arrival order that is not a plain end of stream. |
| `RelayCopy.RunBoth` | internal/metrics/relay.go:80-88 | However the turns of the two directions interleave, each delivers and counts exactly its own copy. |
| `RelayCopy.Relay` | internal/metrics/relay.go:76-101 | In every interleaving, with or without a collector: both copies are delivered, both byte counters grow by exactly the bytes delivered, and exactly one of success and failure grows by one. |
| `PeerStats.PeerStatsCache.ReadCache` | internal/rpc/peerstats.go:44-55 | Splits the requested ids into usable cached loads and ids to fetch. |
| `PeerStats.PeerStatsCache.Loads` | internal/rpc/peerstats.go:31-86 | Result and cache after a whole call. |
| `PeerStats.AskedExactly` | internal/rpc/peerstats.go:35-55 | Asked are the requested ids but the empty one and the node itself, unless a load younger than the TTL, or 3 seconds, is cached. |
| `PeerStats.LoadsAt` | internal/rpc/peerstats.go:31-86 | What an undisturbed call answers for each id: the cached load while young, else what the peer last reported. |
| `PeerStats.CacheAfter` | internal/rpc/peerstats.go:68-84 | The cache then holds every load just fetched, dated by the start of the call, and otherwise what it held. |
| `PeerStats.LoadsAreFresh` | internal/rpc/peerstats.go:31-86 | In every interleaving of calls each load was reported by its peer later than call start minus TTL, under requested ids other than the empty one and the node itself. |
| `Socks5.GreetingRoundTrip` | internal/socks5/server.go:61-75 | A greeting with any methods is accepted and leaves exactly what follows (section 3 of RFC 1928). |
| `Socks5.AcceptedIsGreeting` | internal/socks5/server.go:61-75 | Nothing but greetings is accepted. |
| `Socks5.ConnectRoundTrip` | internal/socks5/server.go:77-120 | Parsing inverts encoding for every address kind, host and port, and leaves exactly the rest (sections 4 and 5 of RFC 1928). |
| `Socks5.AcceptedIsRequest` | internal/socks5/server.go:77-120 | Nothing but encoded requests is accepted. |
| `Socks5.RefusalsExactly` | internal/socks5/server.go:61-112 | When a wrong version, command or address type is reported. |
| `Socks5.Conn.ReadFull` | internal/socks5/server.go:78-81 | Reads exactly n octets however the stream is cut. |
| `Socks5.Conn.Handshake` | internal/socks5/server.go:61-75 | Equals parsing the concatenated stream, answers only an accepted greeting, and reports a failed write of the answer. |
| `Socks5.Conn.ReadAddress` | internal/socks5/server.go:86-112 | The same for the address. |
| `Socks5.Conn.ReadConnect` | internal/socks5/server.go:77-120 | The same for the request. |
| `Resolver.PeerOrder` | internal/rpc/resolver.go:78-106 | A permutation of the other members, connected ones first, each part by id. |
| `Resolver.PeerOrderMeaning` | internal/rpc/resolver.go:91-105 | A connected peer is asked before one that is not; otherwise the smaller id goes first. |
| `Resolver.PeersExactly` | internal/rpc/resolver.go:91-101 | Exactly the named members other than the node are asked, each as often as listed. |
| `Resolver.GroupByNode` | internal/rpc/resolver.go:109-115 | Each owner's announcements, in order; anonymous ones are dropped. |
| `Resolver.MergeAnnouncements` | internal/rpc/resolver.go:108-127 | For any answer: the registry afterwards is the merge of the groups of all owners, in some order. |
| `Resolver.MergeOffers` | internal/rpc/resolver.go:108-127 | Whatever that order, the entries under a name not known before become exactly what the answer offers from other nodes. |
| `Resolver.FoundAreOffers` | internal/rpc/resolver.go:69-72 | After the merge a lookup finds exactly the unexpired instances the answer offers from other nodes. |
| `Resolver.FoundIffUseful` | internal/rpc/resolver.go:69-72 | After the merge a lookup finds something exactly when the answer has an unexpired instance of another node. |
| `Resolver.MergeAndFind` | internal/rpc/resolver.go:69-72 | The result is a lookup in the merged registry, which is then pruned. |
| `Resolver.TurnOutcome` | internal/rpc/resolver.go:43-73 | A turn of the loop finds exactly the live offers of the answer, or leaves the registry without the name. |
| `Resolver.FindByName` | internal/rpc/resolver.go:26-76 | The result is always a lookup in the registry as it then was. With a live instance nobody is asked; else, for answers of the shape registries give, it is exactly the live offers of the first peer in order that has any, or nothing. |
| `Resolver.AnswersAreOnePerOwner` | internal/rpc/server.go:198-214 | Answers given by registries never announce a name twice for one owner. |
| `Resolver.ResolveService` | internal/rpc/server.go:193-216 | Answers with every live instance of the name, own and second-hand, field by field without announce times, and prunes. |
| `VirtualIPs.Fnv1a32` | internal/client/tun_map.go:56-67 | The loop computes the fold that the laws below are about. |
| `VirtualIPs.AddressBits` | internal/client/tun_map.go:51-54 | The third octet is the second-lowest of the hash, the fourth the lowest with its second bit set. |
| `VirtualIPs.DottedText` | internal/client/tun_map.go:35-37 | The key of an address: its numbers in order, with dots between. |
| `VirtualIPs.KeyInjective` | internal/client/tun_map.go:35-37 | Dotted text identifies the address. |
| `VirtualIPs.VirtualServices.Ask` | internal/client/tun_map.go:39-54 | Registers the name under its own virtual address in both tables. |
| `VirtualIPs.VirtualServices.Resolve` | internal/client/tun_map.go:28-33 | Looks the address up in the reverse table. |
| `VirtualIPs.ResolvesToLast` | internal/client/tun_map.go:28-49 | An address resolves to the last registered name that hashes to it. |
| `VirtualIPs.LookupExactly` | internal/client/tun_map.go:28-49 | An address resolves to the last registered name that has it, and to nothing if and only if no registered name has it. |
| `VirtualIPs.RoundTripExactly` | internal/client/tun_map.go:28-54 | A name's address leads back to it if and only if no other name with that address was registered since. |
| `VirtualIPs.ReverseAgrees` | internal/client/tun_map.go:39-49 | Every reverse entry agrees with the forward table. |
| `VirtualIPs.NamesCollide` | internal/client/tun_map.go:51-67 | "ci.ztm" and "wk.ztm" both get 100.127.129.106, and the second takes over the first. |
| `VirtualIPs.AddressRange` | internal/client/tun_map.go:51-54 | Every virtual address lies in 100.127.0.0/16 and never ends in 0 or 1. |

## Left out

- QUIC, gRPC, TLS, memberlist, DNS and Prometheus: library code, represented by events and parameters.
- Certificates and keys (internal/identity, internal/gossip/key.go), JSON and protobuf encodings: abstract.
- internal/admin, cmd, internal/client/agent.go, TUN device and DNS server set-up, deploy: plumbing.
- Tickers, timeouts and other real-time behaviour: safety only. `maintainMeshLinks` is the repeated start of dials.
- Aliasing of label maps: labels are values, as after `copyLabels`.
- `NodeMeta` size truncation and `Select`: they would only add easy members.
- Gateway.HandleClient: the exit for a client connection without an id is not modelled.
- Gateway.HandleStream: the copy that follows an OK answer is modelled in `RelayCopy`; the identity made up for an anonymous client has no effect because `Allow` ignores it.
- Resolver.FindByName: the exits for a missing registry, identity or TLS configuration are not modelled. Which peer helps is stated for answers that name no (owner, name) twice, from owners whose ids do not nest; all answers given in runs over ids free of "/" are such (`WorldAnswersAreSound`).
- GossipDelegate.RegisterService: the case of an agent without gossip, which pushes nothing, and the pause between the two pushes are not modelled.
- GossipDelegate.Delegate.RememberPubKey: parsing of the key text is an option value.
- MeshCycles.OneCyclePerPeer: assumes that a dialled peer answers with the id it was dialled for and that inbound links come from nodes running the same rules.
- Policies.Policy.ApplyBundle: `updatedAt` is not modelled, it is never read.
- JoinTokens.TokensAreOneTime: one process per token file, and tokens drawn by `randomToken` are fresh; tokens of creates that failed to save count as created.
- RelayCopy.Relay: without a collector the endpoints are closed when a direction ends; the other direction sees that as an error of a read or write. The Prometheus total is not modelled.
- PeerStats.PeerStatsCache.Loads: a whole call without interference; `LoadsAreFresh` covers every interleaving. Missing identity or TLS configuration is a failed fetch.
- Socks5.Conn.ReadConnect: hosts are octets; rendering IP addresses as text and the reply message are not modelled. As in the code, offered methods are not inspected.
- VirtualIPs.VirtualServices.Resolve: parsing an address from text and the range test before it are not modelled.
