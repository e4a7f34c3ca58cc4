# Verification of the Peat BLE mesh core

A Dafny model of the logic at the heart of the Peat BLE mesh library, and proofs of what it keeps:
multi-hop relaying, the bookkeeping of peers, replicated documents, wire formats and timing. Run
`dafny verify dfyconfig.toml` in this directory to check everything.

## How the model is laid out

Code that updates state in place is a class whose methods are proved against functions on plain
values; the properties are then lemmas about those functions, about single calls and about whole
runs. Time is always a parameter. Each lock-protected field is a plain field and each public call one
step.

- `Common`, `Tables`, `Sections`: machine integers, little-endian numbers, ordered iteration,
  fixed-width entry tables and marked sections.
- `Relay`, `SeenCache`: envelopes with their codec and hop accounting; the cache of seen messages
  with cleanup and size eviction, and what its answers say about the history of calls.
- `Peers`, `PeerGraph`, `ConnectionGraph`, `GraphRuns`, `PeerManagement`: the seven-state life of a
  direct peer, the routes to indirect peers, and the peer manager.
- `Gossip`: both fanout selections, including the 64-bit generator that may wrap mid-selection.
- `Mesh`, `PeatMeshObject`, `MeshRuns`, `NodeHistories`, `LostReports`, `TickTimers`: the mesh facade,
  in which every callback drives manager, graph, cache and timers together, the invariant that ties them
  over every run, what routes, syncs and connections say exactly of the run, and when a peer is reported
  lost, once or twice; `LostExample` is a run in which it is twice.
- `RelayNetwork`, `Flooding`, `Routes`, `Deduplication`: a network of such nodes with envelopes in
  flight that may be delivered in any order or lost. Runs are sequences of originations, deliveries,
  losses and arbitrary local calls. Termination of flooding, soundness of learned routes and
  deduplication are proved over all of them; `RelayExample` is one such run.
- `GCounters`, `Emergencies`, `Documents`, `DocumentSyncs`: the replicated counter and emergency,
  documents on the wire, and the synchroniser.
- `CounterNetwork`, `EmergencyNetwork`: what counters and emergencies keep over a network that loses,
  repeats and reorders documents; `CounterExample` and `LongEmergency` are runs at the limits.
- `AppOperations`, `AppDocuments`, `CannedMessages`: app operations on the wire, the app-document
  store, and the canned-message document type with its acknowledgement updates.
- `DeviceNames`, `Reconnection`, `Beacons`, `Advertising`: printed names, backoff, beacons, and the
  advertiser's packet cache.

## Points worth knowing

- The platform contract (src/peat_mesh.rs:3468-3472) sends relay data to
  `get_relay_targets(Some(source_node))`. `source_node` is the author of the document inside the
  envelope, not the neighbour that sent it, although `get_relay_targets` documents that it avoids
  sending back to the sender. `RelayNetwork.BackToSender` says exactly when a copy goes back, and the
  run of `RelayExample` contains one. The flooding bounds hold regardless.
- `handle_relay_envelope_with_identifier` never learns a route; the other two entry paths do.
- An origin does not mark its own message as seen. It stays silent because its own document gives no
  merge result, which is what `Deduplication.OriginSilent` rests on.
- A relayed message is marked seen before its payload is opened, so one that fails to open is not
  forwarded and is not tried again.
- A peer can be reported lost twice, by the manager in one cleanup and by the graph in another:
  `LostReports.ReportedTwiceExactly`.
- The summed counter of src/sync/crdt.rs overflows silently in an unchecked build; the change test
  then fails exactly as `GCounters.ChangeTestExact` says.
- The counter decoder refuses more than 256 entries and skips node zero, neither of which the encoder
  does. From 257 counted nodes on a node's documents no longer decode, and other nodes never learn
  of node zero's events (`CounterExample.ZeroUnheard`). Nothing is over-counted either way.
- The length of a section is written in 16 bits. An emergency that tracks more than 13103 nodes does
  not fit, and the bytes behind the shortened section can read as another emergency:
  `EmergencyNetwork.EmergenciesHappened` holds up to that bound, `LongEmergency` shows a run beyond it.
- Emergencies raised at the same instant by different sources: `Emergencies.MergeCommutesExactly`,
  `MergeAssociatesExactly` and `ReportsConvergeExactly` say exactly when they spoil the merge. A merge
  that only adds pending nodes changes state without moving the version.
- A delta operation that overtakes the document it is about is dropped. `AppDocuments.OvertakingExact`
  says exactly when that makes a difference, and `CannedMessages.AckOvertakesExactly` applies it to
  acknowledgements.
- The backoff multiplies in 64 bits without a check: bases of 2^34 ms or more can overflow, which
  `Reconnection.MonotoneExactly` and `DelayAsDocumented` cover for every base and maximum.
- The signal-based selection documents a threshold and a fallback to random choice among similar
  signals; the code takes the strongest peers whatever the threshold (`Gossip.SelectBySignal`).
- The advertiser's service data has a length one too small for section 11 of Part C, Volume 3 of the
  Bluetooth Core Specification (`Advertising.ScannerFallsShort`).
- Both 32-bit tick timers miss a firing when ticks are too far apart; `TickTimers.FiresExactly` and
  `TickTimers.WrapMissed` give the exact bound on the gap.
- A tick interval that does not fit 32 bits is accepted and cut short: `TickTimers.LongIntervalCut`.

## Assumptions

- Payloads are opened by functions given from outside, from bytes to the author of the document or
  nothing; the network leaves each delivery's author open.
- Connections are honest: the identifier an envelope comes in on maps to its sender or to nobody.
- The peripheral codec round-trips in fewer than 65536 bytes, and app document types keep the contract
  their trait documents; both appear as hypotheses of the lemmas that need them.
- Machine arithmetic wraps where the source would wrap in an unchecked build.

## Model

| member | source | states |
|---|---|---|
| `Flooding.FloodingBounded` | src/relay.rs:235-260 | In every run of the network, whatever the seen caches answer or forget, the deliveries and losses of a message, plus what is still in flight weighted by (fanout+1)^remaining hops, never exceed the sum over its originations of copies times (fanout+1)^max_hops. |
| `Flooding.StepLowersPotential` | src/peat_mesh.rs:886-978 | Every delivery and every loss of a message strictly lowers its potential; no step but an origination raises it, and an origination raises it by exactly copies times (fanout+1)^max_hops. |
| `Flooding.OnwardCopies` | src/relay.rs:247-260 | What a node sends on is the delivered envelope with exactly one more hop, only while hops remain, only for a message its cache took as new, and to at most its fanout of targets. |
| `Flooding.CopiesConserved` | src/peat_mesh.rs:3468-3472 | At every point of every run, the copies sent by origins and by relays are exactly the copies received, lost, or in flight. |
| `Flooding.CopiesTraced` | src/relay.rs:247-260 | Every copy in flight is, apart from its hop count, an envelope its origin sent (same origin, flags, limit, identifier and payload), and its hop count is within the limit. |
| `Routes.EveryRouteHappened` | src/peat_mesh.rs:895-913 | In every run, each route a node lists for an origin with h hops via a peer stands for an envelope of that origin which that peer delivered after a chain of exactly h delivered relays. |
| `Routes.IndirectPeersReachUs` | src/peer.rs:695-724 | Every indirect peer is another node, 1 to 3 hops away by its minimum, and a chain of exactly min_hops+1 deliveries links it to the listing node. |
| `Routes.HopCountsComplete` | src/peer.rs:821-843 | In every run the one-, two- and three-hop counts of a node add up to its number of indirect peers. |
| `Routes.FlightChained` | src/relay.rs:247-260 | Every packet in flight reached its sender by a chain of exactly hop_count delivered packets from its origin. |
| `Routes.PerformAddsNoRoute` | src/peer.rs:800-818 | No local call adds a route or changes the hop count of one: only relayed envelopes teach routes. |
| `NodeHistories.RoutesExactly` | src/peer.rs:695-724 | In every run of a node the routes it lists are exactly those it was taught and that no disconnection of the neighbour or late cleanup has undone since, with the hops last taught; and of each origin it records when it was first and last heard of and how often. |
| `Routes.ListedExactly` | src/peer.rs:695-724 | The same in every run of the network, for every node, origin and neighbour. |
| `Routes.DeliveryListed` | src/peat_mesh.rs:886-913 | A packet just delivered by a known sender on a path that learns, of a third node at most three hops away that is no direct peer, is listed, as heard of now. |
| `Deduplication.AcceptedOnce` | src/relay.rs:383-403 | In a window shorter than the cache time to live in which a node forgets nothing early, it takes a message for new at most once, whichever of the three entry paths brings it; and the cache still knows it. |
| `Deduplication.ForwardedOnce` | src/peat_mesh.rs:2724-2749 | In such a window a node hands relay data for a message to its platform at most once. |
| `Deduplication.FloodSends` | src/peat_mesh.rs:886-978 | In such a window the whole network sends a message on at most nodes times fanout times. |
| `Deduplication.OriginSilent` | src/document_sync.rs:573-575 | The origin never forwards its own message again, even when its cache does not know it. |
| `Deduplication.FloodReceives` | src/peat_mesh.rs:3468-3472 | A document flooded within one window is received at most once per copy its origin sent plus fanout for every other node. |
| `RelayNetwork.EveryNodeKept` | src/peat_mesh.rs:2049-2237 | Every node of every reachable network keeps the invariant that ties its peer manager to its connection graph. |
| `RelayExample.ARouteIsLearned` | src/peat_mesh.rs:886-978 | Such runs exist: in a network of three a message is relayed by the middle node, teaches the last a route to its origin, and the last sends its copy back to the node it came from. |
| `RelayNetwork.ConfigsStay` | src/peat_mesh.rs:886-978 | No step adds or removes a node or changes a configuration or a cache time to live. |
| `RelayNetwork.BackToSender` | src/peat_mesh.rs:855-878 | When a node forwards, the neighbour that sent the envelope may be among the targets exactly when it was connected before the delivery and did not write the document inside; and it is among them whenever no more peers were eligible than the fanout. |
| `RelayNetwork.AuthorNotAnswered` | src/peat_mesh.rs:855-878 | A neighbour that sent its own document is never among the targets. |
| `RelayNetwork.ForwardsExactly` | src/peat_mesh.rs:886-978 | A delivery is reported exactly when the message is new and its document opens and is another node's, with author, origin and hops; it is sent on exactly when, besides, relaying is enabled and hops are left, then with exactly one more hop. |
| `RelayNetwork.RelayOffSilent` | src/peat_mesh.rs:955-978 | In every run a node with relaying off sends nothing on: whatever is in flight from it, it has originated itself. |
| `Relay.MessageIdInjective` | src/relay.rs:111-124 | Content identifiers are equal exactly for equal origin, time and payload hash. |
| `Relay.RelayTimesExact` | src/relay.rs:235-260 | An envelope can be relayed k times exactly when k is at most its remaining hops, and then only its hop count has moved, by k. |
| `Relay.DecodeInvertsEncode` | src/relay.rs:263-317 | Decoding an encoded envelope followed by any bytes gives it back if and only if its payload length fits the 32-bit field. |
| `Relay.EncodeInvertsDecode` | src/relay.rs:280-317 | Re-encoding a decoded envelope reproduces the bytes read, except for the reserved flag bits. |
| `Relay.ForwardedEnvelopeDecodes` | src/relay.rs:247-317 | The bytes of a forwarded envelope decode to the received envelope with one more hop. |
| `SeenCache.SeenMessageCache.WithTtl` | src/relay.rs:363-369 | A new cache is empty, with its time to live and no cleanup yet. |
| `SeenCache.SeenMessageCache.HasSeen` | src/relay.rs:375-377 | Answers whether the identifier is cached. |
| `SeenCache.SeenMessageCache.MarkSeen` | src/relay.rs:383-403 | Cleans up first when more than half the time to live has passed since the last cleanup; then answers whether the identifier was absent, and records it or counts it once more, keeping its first time. |
| `SeenCache.SeenMessageCache.Cleanup` | src/relay.rs:414-436 | Keeps exactly the entries younger than the time to live; if more than 1000 are left, evicts the oldest. |
| `SeenCache.SeenMessageCache.EvictOldest` | src/relay.rs:421-436 | Exactly 500 entries stay, unchanged, and none is older than a dropped one. |
| `SeenCache.SeenMessageCache.Clear` | src/relay.rs:449-451 | Empties the cache and nothing else. |
| `SeenCache.SeenMessageCache.GetStats` | src/relay.rs:454-458 | Gives first time, count and origin of a cached identifier, and nothing otherwise. |
| `SeenCache.AcceptedStays` | src/relay.rs:383-436 | Over a history of calls, an accepted identifier stays cached with its first time until it expires, unless a call forgets live entries. |
| `SeenCache.AcceptancesSpaced` | src/relay.rs:383-436 | Two acceptances of one identifier are at least the time to live apart, unless a call in between cleared the cache or evicted by size. |
| `SeenCache.AgeBound` | src/relay.rs:383-436 | After every mark or cleanup no entry is as old as one and a half times to live. |
| `SeenCache.RejectionsRecent` | src/relay.rs:383-436 | A rejected identifier was accepted earlier, less than one and a half times to live ago. |
| `SeenCache.EntriesWereAccepted` | src/relay.rs:383-403 | Every cached entry dates from a call that accepted its identifier: time and origin are those of that call, and its count is how often the identifier has been marked since. |
| `SeenCache.CleanupTells` | src/relay.rs:414-436 | A cleanup leaves exactly the entries younger than the time to live if those are at most a thousand, and otherwise the newest five hundred of them. |
| `SeenCache.MarkTells` | src/relay.rs:383-403 | A mark cleans up exactly if more than half the time to live has passed since the last cleanup; without one it takes a message for new exactly if it is not cached, with one also if it has expired; then it is cached. |
| `SeenCache.ClearForgets` | src/relay.rs:449-451 | After a clear the next message is new, whichever it is. |
| `Gossip.SelectRandom` | src/gossip.rs:156-186 | For any readings of the generator the picks are distinct positions, all peers if no more than the fanout, otherwise at least one and at most the fanout and in the order of the tries; with a fixed seed exactly the fanout. |
| `Gossip.StretchDistinct` | src/gossip.rs:131-146 | Within the 3*fanout tries of a fixed seed there are fanout consecutive ones that land on different peers, even when the 64-bit generator wraps in between. |
| `Gossip.PicksSound` | src/gossip.rs:170-186 | After any number of tries the picks are distinct positions within the fanout, and fall short of it only if every try landed on a picked peer. |
| `Gossip.SelectBySignal` | src/gossip.rs:261-312 | Of more peers than the fanout, with distinct identifiers, exactly the fanout's number of strongest are selected in falling order, whatever the threshold: it makes no difference. All peers if no more than the fanout. |
| `Gossip.SortStrongestFirst` | src/gossip.rs:272-276 | A permutation of the positions by falling signal strength. |
| `ConnectionGraph.ConnectionStateGraph.WithConfig` | src/peer.rs:452-460 | A new graph is empty, with an indirect timeout of two minutes. |
| `ConnectionGraph.ConnectionStateGraph.OnDiscovered` | src/peer.rs:559-588 | Adds the peer if unknown, refreshes its metadata, and makes a lost peer disconnected. |
| `ConnectionGraph.ConnectionStateGraph.OnConnecting` | src/peer.rs:591-595 | Marks a known peer as connecting; otherwise nothing. |
| `ConnectionGraph.ConnectionStateGraph.OnConnected` | src/peer.rs:598-602 | Marks a known peer connected, with time and count; otherwise nothing. |
| `ConnectionGraph.ConnectionStateGraph.OnDisconnected` | src/peer.rs:605-609 | Marks a known peer disconnected, with time and reason; otherwise nothing. |
| `ConnectionGraph.ConnectionStateGraph.UpdateRssi` | src/peer.rs:335-346 | Degrades a connected peer below the threshold, recovers a degraded one, and answers true exactly when the peer has just become degraded. |
| `ConnectionGraph.ConnectionStateGraph.Tick` | src/peer.rs:638-653 | Moves exactly the overdue disconnected peers to lost and returns them in order. |
| `ConnectionGraph.ConnectionStateGraph.CleanupLost` | src/peer.rs:656-672 | Removes exactly the peers lost for longer than the given time and returns them in order. |
| `ConnectionGraph.ConnectionStateGraph.ImportPeer` | src/peer.rs:675-678 | Stores the peer as connected or discovered according to its flag. |
| `ConnectionGraph.ConnectionStateGraph.OnRelayReceived` | src/peer.rs:695-724 | Records or updates the route for an origin at most three hops away that is not a direct peer; answers true exactly when the origin is new. |
| `ConnectionGraph.ConnectionStateGraph.CleanupIndirect` | src/peer.rs:781-794 | Removes exactly the stale indirect peers and returns them in order. |
| `ConnectionGraph.ConnectionStateGraph.RemoveViaPeer` | src/peer.rs:800-818 | Erases the peer from all routes and drops the indirect peers left without one. |
| `ConnectionGraph.ConnectionStateGraph.StateCounts` | src/peer.rs:532-546 | Counts every peer once, under its state. |
| `ConnectionGraph.ConnectionStateGraph.HopCounts` | src/peer.rs:821-843 | Counts the indirect peers one, two and three hops away. |
| `GraphRuns.EveryReachableGraphKept` | src/peer.rs:294-330 | In every reachable graph a connected or degraded peer has a connect time and a count of at least one, a disconnected or lost one a time and a reason, and every indirect peer a non-empty route map of at most three hops with min_hops its true minimum. |
| `GraphRuns.UpdatePathMinimum` | src/peer.rs:983-1001 | The shortcut for shorter routes is right: after an update min_hops is the minimum of the updated routes, and it falls exactly when the test for a better route says so. |
| `GraphRuns.RemoveViaExact` | src/peer.rs:800-818 | Removing a relay drops exactly the peers reachable only through it, takes exactly its routes from the others, and leaves their true minimum. |
| `GraphRuns.LostOnlyByTick` | src/peer.rs:325-330 | A peer becomes lost only in a tick that finds it disconnected for longer than the timeout. |
| `GraphRuns.TickReportsExactly` | src/peer.rs:638-653 | A tick returns exactly the peers it moves from disconnected to lost, and changes no other. |
| `GraphRuns.StateMachine` | src/peer.rs:294-346 | A tracked peer is in another state after a call if and only if the call is one of the legal moves of the seven-state machine into that state, and its connection count grows by one exactly when it connects. |
| `GraphRuns.TrackedExactly` | src/peer.rs:559-672 | After a call exactly those peers are tracked that were and are not cleaned up and the one discovered or imported, which begins as discovered at that moment; cleaned up are exactly the peers lost for longer than the given time. |
| `GraphRuns.RecordTells` | src/peer.rs:294-346 | When a peer connected, disconnected and why, its signal, name and mesh are those of the last call of their kind. |
| `GraphRuns.CallFrame` | src/peer.rs:559-620 | A call about one peer leaves all other direct peers and all routes alone, and stamps that peer as seen at the time of the call. |
| `GraphRuns.FreshLossSurvives` | src/peer.rs:656-672 | A peer just declared lost survives the cleanup of the same instant. |
| `GraphRuns.StateCountsAgree` | src/peer.rs:532-546 | The state counts add up to the number of peers, and each is the number of peers in that state. |
| `GraphRuns.IndirectTotal` | src/peer.rs:821-843 | The hop counts add up to the number of indirect peers if and only if each is one to three hops away. |
| `PeerManagement.PeerManager.constructor` | src/peer_manager.rs:88-96 | A new manager tracks nobody. |
| `PeerManagement.PeerManager.OnDiscovered` | src/peer_manager.rs:121-182 | Admits a named peer of our mesh other than ourselves while there is room, displacing the former owner of the identifier, and answers its node and whether it is new. |
| `PeerManagement.PeerManager.OnConnected` | src/peer_manager.rs:188-200 | Marks the identified peer connected and seen now. |
| `PeerManagement.PeerManager.OnDisconnected` | src/peer_manager.rs:206-221 | Marks the identified peer disconnected. |
| `PeerManagement.PeerManager.OnDisconnectedByNodeId` | src/peer_manager.rs:227-235 | Marks the peer disconnected and answers whether it is tracked. |
| `PeerManagement.PeerManager.OnIncomingConnection` | src/peer_manager.rs:241-278 | Registers the peer as connected under its current identifier while there is room, unmapping its former one; answers whether it is new. |
| `PeerManagement.PeerManager.ShouldSyncWith` | src/peer_manager.rs:283-289 | Is false exactly while a recorded sync is more recent than a positive cooldown, although the elapsed time is computed with saturation; `PeerManagement.DueExactly` says what that means over any calls. |
| `PeerManagement.DueExactly` | src/peer_manager.rs:283-325 | After any calls to a new manager, a peer is due for a sync exactly when no sync with it was recorded since a cleanup last dropped it, or the last one recorded is at least the cooldown old, or there is no cooldown; nothing else the manager is asked changes that. |
| `PeerManagement.SyncCooldown` | src/peer_manager.rs:283-298 | Recording a sync makes its peer due again exactly when the cooldown has passed since, and no other peer more or less due than it was. |
| `PeerManagement.SyncForgotten` | src/peer_manager.rs:283-325 | After a cleanup exactly the dropped peers and those already due are due. |
| `PeerManagement.PeerManager.RecordSync` | src/peer_manager.rs:292-295 | Records the time of the last sync. |
| `PeerManagement.PeerManager.CleanupStale` | src/peer_manager.rs:301-325 | Removes exactly the stale peers with their identifiers and sync times, and returns them in order. |
| `PeerManagement.PeerManager.GetConnectedPeers` | src/peer_manager.rs:334-337 | Lists the connected peers in order. |
| `PeerManagement.PeerManager.RegisterIdentifier` | src/peer_manager.rs:366-374 | Maps the identifier to the node. |
| `PeerManagement.AdmittedExactly` | src/peer_manager.rs:129-200 | A device is admitted exactly when it announces our mesh or none, is named after a node other than us, and there is room, counting the node its identifier displaces; the answer says which node and whether it is new. |
| `PeerManagement.CallTells` | src/peer_manager.rs:121-182 | After any call exactly those nodes are tracked that were and were not displaced or stale, and the one seen, which was last seen now; connected are exactly those that were and are not disconnected by it, and the one it connects; nothing else of the others changes. |
| `PeerManagement.SightingRecorded` | src/peer_manager.rs:121-182 | What is recorded of a node seen: signal and name of a discovery, the new identifier of an incoming connection, and of a new node its mesh. |
| `PeerManagement.NamesTell` | src/peer_manager.rs:241-278 | After any call an identifier names the node the call gave it, none if the call unmapped it, and otherwise what it did before. |
| `PeerManagement.DiscoveryKeeps` | src/peer_manager.rs:121-182 | A discovery never tracks ourselves, never exceeds max_peers, and keeps every peer under its own identifier. |
| `PeerManagement.IncomingKeeps` | src/peer_manager.rs:241-278 | Neither does an incoming connection. |
| `PeerManagement.CleanupKeeps` | src/peer_manager.rs:301-325 | Neither does a cleanup. |
| `DeviceNames.NodeIdRoundTrip` | src/peer_manager.rs:440-453 | The node identifier of a printed device name parses back for every mesh identifier and every node. |
| `DeviceNames.DeviceNameRoundTrip` | src/config.rs:263-287 | A printed device name parses back to mesh and node if the mesh identifier has no dash, and to nothing if it has one. |
| `DeviceNames.LegacyNameRoundTrip` | src/config.rs:274-287 | A name of the legacy form parses to its node without a mesh. |
| `PeatMeshObject.PeatMesh.constructor` | src/peat_mesh.rs:341-391 | A new mesh has empty components and zero timers. |
| `PeatMeshObject.PeatMesh.OnBleDiscovered` | src/peat_mesh.rs:2049-2082 | Updates the manager, and the graph only for an admitted peer, which it returns. |
| `PeatMeshObject.PeatMesh.OnBleConnected` | src/peat_mesh.rs:2087-2112 | Marks the mapped peer connected in manager and graph; returns the node the identifier was mapped to, or nothing. |
| `PeatMeshObject.PeatMesh.OnBleDisconnected` | src/peat_mesh.rs:2115-2155 | Marks the mapped peer disconnected in manager and graph and drops the routes through it; returns the node the identifier was mapped to, or nothing. |
| `PeatMeshObject.PeatMesh.OnPeerDisconnected` | src/peat_mesh.rs:2160-2198 | The same for a peer given by node, if tracked. |
| `PeatMeshObject.PeatMesh.OnIncomingConnection` | src/peat_mesh.rs:2203-2237 | Registers the connection in the manager, adds a new peer to the graph, and marks it connected there; returns true exactly when the manager tracks the peer now and did not before. |
| `PeatMeshObject.PeatMesh.ProcessDocumentData` | src/peat_mesh.rs:2633-2721 | A document that opens and is not our own records a sync with its sender and is reported with its author. |
| `PeatMeshObject.PeatMesh.ProcessIncomingDocument` | src/peat_mesh.rs:2789-2884 | The same on the anonymous path: the sync is with the author, who is registered as connected if the document came directly. |
| `PeatMeshObject.PeatMesh.ProcessRelayEnvelope` | src/peat_mesh.rs:886-978 | Learns the route, marks the message seen, answers nothing for a duplicate, and otherwise the payload with an envelope to forward exactly when relaying is enabled and hops remain. |
| `PeatMeshObject.PeatMesh.HandleRelayEnvelope` | src/peat_mesh.rs:2724-2749 | Handles an envelope from a known node as the shared relation of the three entry paths says. |
| `PeatMeshObject.PeatMesh.HandleRelayEnvelopeWithIdentifier` | src/peat_mesh.rs:2375-2424 | Handles an envelope from a mapped address; this path never learns a route. |
| `PeatMeshObject.PeatMesh.HandleRelayEnvelopeWithIncoming` | src/peat_mesh.rs:2887-2958 | Handles an envelope from any address; a route is learned only if the address is mapped. |
| `PeatMeshObject.PeatMesh.OnBleDataReceived` | src/peat_mesh.rs:2245-2280 | Sorts received bytes: unknown sender ignored, end-to-end traffic left aside, envelopes handled, documents reported. |
| `PeatMeshObject.PeatMesh.OnBleDataReceivedFromNode` | src/peat_mesh.rs:2432-2459 | The same for a sender given by node. |
| `PeatMeshObject.PeatMesh.OnBleData` | src/peat_mesh.rs:2759-2786 | The same on the anonymous path. |
| `PeatMeshObject.PeatMesh.WrapForRelay` | src/peat_mesh.rs:849-853 | The bytes decode to a broadcast envelope from ourselves with no hop taken and the configured limit. |
| `PeatMeshObject.PeatMesh.GetRelayTargets` | src/peat_mesh.rs:859-875 | Connected peers other than the excluded one, each once, at most the fanout; all of them if no more than the fanout, at least one if there is any. |
| `PeatMeshObject.PeatMesh.Tick` | src/peat_mesh.rs:2969-3020 | Runs maintenance and the sync timer; broadcasts exactly when that fires and some peer is still connected; answers which peers to report lost. |
| `PeatMeshObject.ReportLost` | src/peat_mesh.rs:2996-3002 | Reports the newly lost peers that the manager has not already reported. |
| `PeatMeshObject.EnvelopeAnswered` | src/peat_mesh.rs:2376-2414 | What the platform is told of an envelope: its document if new, openable and another node's, and bytes to send on exactly when, besides, relaying is enabled and hops are left; those decode to the envelope with one more hop. |
| `PeatMeshObject.DocumentAnswered` | src/peat_mesh.rs:2633-2721 | A document by itself is reported, with its author, exactly when it opens and is another node's. |
| `PeatMeshObject.MarkersSort` | src/peat_mesh.rs:2255-2275 | Received bytes are secret, relay traffic or documents by their first byte, and every encoded envelope is relay traffic. |
| `MeshRuns.EveryReachableMeshKept` | src/peat_mesh.rs:2049-2237 | In every reachable state of a node, on a positive clock that never goes back: each tracked peer is in the graph with a last_seen at least as recent, connected or degraded there if connected in the manager; our own id is in neither; the manager never exceeds max_peers. |
| `MeshRuns.PerformKeeps` | src/peat_mesh.rs:2049-2237 | Each single callback keeps that invariant. |
| `MeshRuns.TickKeeps` | src/peat_mesh.rs:2978-3004 | The tick keeps it: whoever the graph forgets was stale for the manager already. |
| `MeshRuns.HandlesKeeps` | src/peat_mesh.rs:886-978 | Handling an envelope keeps it, on each of the three paths. |
| `MeshRuns.TickReportsOnce` | src/peat_mesh.rs:2978-3004 | A tick reports each lost peer once: exactly those the manager dropped and those the graph declared lost. |
| `MeshRuns.TickKeepsFreshLosses` | src/peat_mesh.rs:2990-2993 | A tick never forgets a peer it has just declared lost. |
| `NodeHistories.BroadcastsExactly` | src/peat_mesh.rs:3007-3016 | The tick broadcasts exactly when the sync timer fires and some peer is connected once stale ones have gone. |
| `NodeHistories.SyncsExactly` | src/peer_manager.rs:292-295 | In every run the sync time held for a node is exactly that of the last document of another node it sent (on the anonymous path: wrote), relayed ones counting only when new, unless a cleanup has dropped it since. |
| `NodeHistories.DirectPeersTell` | src/peat_mesh.rs:2049-2237 | What becomes of a direct peer with any callback: in the graph exactly if it was and the tick does not forget it or the callback brings it; then connected now, disconnected now for the given reason, lost, found again, or as before. |
| `NodeHistories.ManagerFollows` | src/peat_mesh.rs:2049-2237 | Each callback moves the peer manager by exactly one of its calls, and the tick by its cleanup when that is due. |
| `LostReports.ReportedExactly` | src/peat_mesh.rs:2978-3004 | Over a run in which only ticks touch a peer, a cleanup reports it lost exactly when it is the first to find it stale for the manager or the first to find it disconnected past the lost timeout. |
| `LostReports.ReportsCounted` | src/peat_mesh.rs:2978-3004 | Over any stretch of a run in which only ticks touch a peer, the ticks report it once if a cleanup found it stale for the manager, once if a cleanup found it overdue for the graph, and once less if the same cleanup was the first to find both. |
| `LostReports.ReportedTwiceExactly` | src/peat_mesh.rs:2978-3004 | So over such a stretch a peer is reported at most twice, and twice exactly when some cleanup came late enough for one of the two timeouts only, and a later one late enough for both. |
| `LostExample.ReportedTwice` | src/peat_mesh.rs:2978-3004 | That happens: with timeouts of thirty and forty-five seconds, a peer that connects and drops is reported by the ticks at 31 and at 50 seconds. |
| `TickTimers.TimersFollowTicks` | src/peat_mesh.rs:2969-3020 | Over a whole run of a node both timers depend only on when it ticked. |
| `TickTimers.FiringsSpaced` | src/peat_mesh.rs:3007-3011 | Consecutive firings are truly at least the interval apart, if it fits 32 bits. |
| `TickTimers.LongIntervalCut` | src/peat_mesh.rs:3007-3011 | An interval of 2^32 ms or more is cut short: two firings come closer than it. |
| `TickTimers.FiresExactly` | src/peat_mesh.rs:3007-3011 | With tick gaps of at most g and interval + g at most 2^32, a tick fires exactly when the interval has truly passed since the last firing. |
| `TickTimers.FiresInTime` | src/peat_mesh.rs:3007-3011 | Then the timer fires within interval + g. |
| `TickTimers.WrapMissed` | src/peat_mesh.rs:3007-3011 | The bound is best possible: for any larger gap there is a run whose tick 2^32 ms after a firing does not fire. |
| `GCounters.SumCounts` | src/sync/crdt.rs:163-165 | The sum of the counts as 64-bit addition computes it. |
| `GCounters.MergeCounts` | src/sync/crdt.rs:181-186 | The larger count for every node known to either side. |
| `GCounters.MergeIsJoin` | src/sync/crdt.rs:181-186 | Merging is the least upper bound: commutative, associative, and repeating a merge changes nothing. |
| `GCounters.ChangeTestExact` | src/document_sync.rs:577-583 | Comparing the summed value before and after a merge detects a moved count if and only if the growth, the sum over the nodes of how far the other side is ahead, is zero or no multiple of 2^64. |
| `GCounters.GrowthExact` | src/sync/crdt.rs:181-186 | A merge adds exactly that growth to the total, and the growth is positive exactly when some count moves. |
| `GCounters.ChangeTestWithoutOverflow` | src/document_sync.rs:577-583 | So the test is exact as long as the merged total fits 64 bits. |
| `GCounters.OverflowHidesChange` | src/document_sync.rs:577-583 | Two counts of 2^63 are a change the test does not see. |
| `GCounters.CounterRoundTrip` | src/sync/crdt.rs:202-261 | A counter decodes from its bytes, followed by anything, if and only if it has at most 256 nodes and none numbered zero; its size is 4 + 12 per node. |
| `Tables.ReadTable` | src/sync/crdt.rs:219-261 | The decoding loop computes the specified table, or nothing for a count over the limit or missing bytes. |
| `Emergencies.MergeEvents` | src/sync/crdt.rs:782-802 | The merge loop computes the newer event, or the pooled acknowledgements of the same event, and whether an acknowledgement was new. |
| `Emergencies.MergeCommutesExactly` | src/sync/crdt.rs:780-790 | Merging commutes if and only if the events do not share a timestamp while differing in source. |
| `Emergencies.MergeAssociatesExactly` | src/sync/crdt.rs:780-802 | Merging three reports associates if and only if it is not the case that the outer two are of one event, the middle one ties with it under another source, and the last adds something to the first. |
| `Emergencies.MergeIdempotent` | src/sync/crdt.rs:782-802 | Merging the same report again changes nothing and says so. |
| `Emergencies.ChangeFlagExact` | src/sync/crdt.rs:774-802 | The change flag is right if and only if the merge is not of the same event with nothing but nodes still to answer to add. |
| `Emergencies.MergedExactly` | src/sync/crdt.rs:774-802 | Any reports, merged in turn, give the first of the newest events, tracking every node some report of it tracks and acknowledged by exactly those some report of it says. |
| `Emergencies.ReportsConvergeExactly` | src/sync/crdt.rs:774-802 | Every order and repetition of the same reports merges to the same event if and only if no two reports of the newest time have different sources. |
| `Emergencies.NewEmergencyExact` | src/sync/crdt.rs:680-698 | A new emergency tracks its source, which has answered, and the known peers, which have not. |
| `Emergencies.AckExact` | src/sync/crdt.rs:718-726 | Acknowledging adds exactly that node, and is new exactly the first time. |
| `Emergencies.AcksStay` | src/sync/crdt.rs:792-801 | While an event lasts no acknowledgement or tracked node is taken back and none is invented. |
| `Emergencies.EventRoundTrip` | src/sync/crdt.rs:807-880 | An event decodes from its bytes if and only if its source is not zero, its timestamp is in 2020 or later, and it has at most 256 acknowledgements, none of node zero. |
| `Documents.DecodeDocument` | src/document.rs:525-614 | The decoding loop computes the specified document. |
| `Documents.DocumentRoundTrip` | src/document.rs:452-614 | A document decodes from its bytes if and only if its counter and emergency are within the limits of their decoders, for any peripheral codec that round-trips in under 65536 bytes. |
| `Documents.PrefixesDecode` | src/document.rs:525-614 | A prefix without the whole header and counter decodes to nothing; a longer one to the same version, node and counter with each section whole or absent. |
| `Documents.EncodedSizeExact` | src/document.rs:633-646 | The computed size is the exact length of the encoding. |
| `Documents.MergeAgain` | src/document.rs:392-439 | Merging a document a second time changes nothing and reports no change. |
| `Documents.ParsedSendable` | src/document.rs:547-603 | Whatever bytes arrive, an emergency taken from them is within the decoder limits. |
| `DocumentSyncs.DocumentSync.constructor` | src/document_sync.rs:98-112 | A new synchroniser has an empty counter, no emergency and version 1. |
| `DocumentSyncs.DocumentSync.IncrementCounter` | src/document_sync.rs:648-653 | Counts one event of ours and moves the version. |
| `DocumentSyncs.DocumentSync.SendEvent` | src/document_sync.rs:177-204 | Sets the peripheral, counts one event and builds the document. |
| `DocumentSyncs.DocumentSync.UpdatePeripheral` | src/document_sync.rs:219-223 | Sets the peripheral and moves the version. |
| `DocumentSyncs.DocumentSync.StartEmergency` | src/document_sync.rs:323-342 | Replaces the emergency by a new one of ours, counts one event and builds the document. |
| `DocumentSyncs.DocumentSync.AckEmergency` | src/document_sync.rs:347-368 | Acknowledges the emergency; counts an event only the first time; nothing without an emergency. |
| `DocumentSyncs.DocumentSync.ClearEmergency` | src/document_sync.rs:371-383 | Drops the emergency and moves the version, if there is one. |
| `DocumentSyncs.DocumentSync.BuildDocument` | src/document_sync.rs:542-563 | The bytes of the current state. |
| `DocumentSyncs.DocumentSync.MergeDocument` | src/document_sync.rs:569-639 | Nothing for bytes that do not decode or are our own; otherwise counter and emergency merged, the version moved if either claims a change, and the result reported. |
| `DocumentSyncs.VersionTells` | src/document_sync.rs:577-622 | Without overflow the version moves exactly when a count or the emergency moved, except for merges that only add nodes still to answer; without emergency data exactly when a count moved. |
| `DocumentSyncs.MergeTells` | src/document_sync.rs:569-639 | A merge reports its author and peripheral; the counter as changed exactly if a count moved and the total did not grow by a multiple of 2^64; the emergency as changed exactly if it is the first, a newer one, or brings an acknowledgement of the one held; and the total afterwards. |
| `DocumentSyncs.MergeShows` | src/document_sync.rs:569-639 | Nothing is reported and nothing changes exactly for bytes that do not decode or are our own; otherwise the version moves exactly with a flag, and no flag is raised for nothing. |
| `CounterNetwork.LocallyTells` | src/document_sync.rs:323-383 | What a node does on its own: the version moves and the given peripheral is taken exactly if there is an effect; an emergency started is ours, of that time, listing those known; an acknowledgement adds ours and nothing else; clearing leaves none. |
| `DocumentSyncs.MergedAgain` | src/document_sync.rs:569-639 | Merging the same bytes again changes nothing and reports no change. |
| `DocumentSyncs.BuiltDecodes` | src/document_sync.rs:542-657 | What a node builds fails to decode exactly when it counts more than 256 nodes (up to the 2^32 that its count field holds); what decodes carries nothing but its counts, and up to 256 nodes all of them but that of node zero. |
| `DocumentSyncs.BuiltMerges` | src/document_sync.rs:542-639 | The receiver keeps its counts or merges some of the sender's, up to 256 nodes all but that of node zero; a node takes nothing from its own documents. |
| `CounterNetwork.NeverOverCounts` | src/document_sync.rs:569-639 | Over loss, repetition and reordering, in a network of any size, no node counts events that did not happen, and each node's own count is its number of events, as far as 64 bits go. |
| `CounterNetwork.OwnCountLeads` | src/document_sync.rs:569-639 | No node knows of more events of another than that node itself. |
| `CounterNetwork.CountersAgreeExactly` | src/document_sync.rs:542-639 | Once each node has merged a document every other built after the last event and that still decodes, all counters are equal if and only if there is one node or none, or node zero never counted an event. |
| `CounterExample.ZeroUnheard` | src/sync/crdt.rs:234-261 | Counters can stay different: nodes zero and one have each received what the other sent since node zero counted an event, and node one still has not that event. |
| `CounterNetwork.TotalsExact` | src/document_sync.rs:542-653 | Then every node reports the number of events, without those of node zero unless it is node zero, as long as 64 bits hold it. |
| `CounterNetwork.ReplicationOverTheWire` | src/document_sync.rs:542-657 | All of this holds for documents built, sent as bytes, decoded and merged: no node is ahead of another on that one's own count, and where the last round was heard and node zero is silent, counters are equal and totals are the number of events. |
| `CounterNetwork.SmallNetworkReadable` | src/sync/crdt.rs:219-245 | In a network of at most 256 nodes every document ever sent decodes. |
| `Documents.EmergencyArrives` | src/document.rs:452-614 | Of the emergency in a document at most a part arrives, of the same event and with acknowledgements as they were, whatever the counter, if the emergency fits the 16-bit length of its section. |
| `EmergencyNetwork.EmergenciesHappened` | src/document_sync.rs:323-639 | Over loss, repetition and reordering, while every emergency sent fits its section: whatever emergency a node holds or has sent was started by its source, each node listed as having acknowledged it, other than the source, did so, and each node listed at all was known to the source or acknowledged. |
| `EmergencyNetwork.HeldOverTheWire` | src/document_sync.rs:542-639 | The same for documents built, sent as bytes, decoded and merged. |
| `LongEmergency.NobodyRaisedIt` | src/document.rs:452-614 | The bound is best possible: with 13104 tracked nodes, one more than fit a section, there is a run in which a node comes to hold an emergency that nobody raised. |
| `AppOperations.OperationRoundTrip` | src/registry.rs:205-256 | An operation decodes from its bytes, followed by anything, with the exact byte count, if and only if its type is 0xC0 to 0xCF and its payload is shorter than 65536 bytes. |
| `AppOperations.ListRoundTrip` | src/registry.rs:205-256 | A concatenation of encoded operations decodes to the same list with the exact byte count. |
| `AppOperations.TimestampRecovered` | src/peat_mesh.rs:1315-1320 | The receiver recovers the document timestamp from the packed one if and only if it is below 2^48. |
| `AppOperations.TimestampGrows` | examples/canned_message_sync.rs:108-116 | The packed timestamp grows exactly as the low 16 bits of the acknowledgement count do, so strictly up to 65535. |
| `AppOperations.AckCountWraps` | examples/canned_message_sync.rs:108-116 | At 65536 acknowledgements the packed timestamp is back where it started. |
| `AppDocuments.AppDocumentStore.TryRegister` | src/registry.rs:391-410 | Registers a type once and only in the app range. |
| `AppDocuments.AppDocumentStore.StoreAppDocument` | src/peat_mesh.rs:1727-1743 | Merges into the stored document of the same name, or stores. |
| `AppDocuments.AppDocumentStore.ReceiveOperation` | src/peat_mesh.rs:1314-1361 | Applies the operation to the stored document, or tries its payload as a full state. |
| `AppDocuments.ChangeReported` | src/peat_mesh.rs:1314-1361 | For types that report changes honestly, storing and receiving report a change exactly when the store changed. |
| `AppDocuments.ArriveJoins` | src/peat_mesh.rs:1333-1361 | A local document or full-state operation joins what it brings into its place and touches no other. |
| `AppDocuments.HoldsAll` | src/peat_mesh.rs:1333-1361 | After any arrivals the stored document holds everything that arrived for its key. |
| `AppDocuments.HoldsNoMore` | src/peat_mesh.rs:1333-1361 | And it is below every document that does: it is exactly the join. |
| `AppDocuments.OrderIrrelevant` | src/registry.rs:101-143 | For types whose merge is a join and whose full-state operation applies it, any order and repetition of the same local documents and full-state operations leaves the same store. |
| `AppDocuments.OvertakingExact` | src/peat_mesh.rs:1333-1361 | For any type whose full state merges, a full-state operation and any other operation on the same document leave the same store in both orders if and only if: stored already, applying the other commutes with merging the full state; not stored, the other changes nothing after the full state if it does not decode, and otherwise has the effect of merging the full state into what it decodes to. |
| `CannedMessages.ApplyDeltaOp` | examples/canned_message_sync.rs:119-168 | The loop over the listed acknowledgements records them one after the other, or merges a full state, or refuses. |
| `CannedMessages.AppliedTells` | examples/canned_message_sync.rs:119-168 | An operation reports a change exactly if it acknowledges something new to the message when its turn comes, or merges a full state that the message says changed it; refused ones leave the message as it is. |
| `CannedMessages.DeltaOpArrives` | examples/canned_message_sync.rs:108-116 | The operation a message turns itself into brings that message to its own place if and only if its timestamp is below 2^48. |
| `CannedMessages.AckOvertakesExactly` | examples/canned_message_sync.rs:119-168 | An acknowledgement update may overtake the message it is about, with the same outcome, if and only if it adds nothing to that message; one whose payload reads as a message itself, if and only if merging the message into that has its effect. Otherwise what it says is lost. |
| `CannedMessages.DeltaOvertakes` | examples/canned_message_sync.rs:119-168 | So for a message type that keeps the whole contract the order of a message and its acknowledgement matters. |
| `AppDocuments.PackedKeyMatches` | src/peat_mesh.rs:1314-1332 | A packed operation finds the place its document is stored under locally if and only if the timestamp is below 2^48. |
| `Reconnection.ReconnectionManager.TrackDisconnection` | src/reconnect.rs:213-220 | Starts tracking an address with no attempts; nothing if tracked already. |
| `Reconnection.ReconnectionManager.GetStatus` | src/reconnect.rs:228-260 | Not tracked, exhausted, ready, or waiting with the time left. |
| `Reconnection.ReconnectionManager.GetPeersToReconnect` | src/reconnect.rs:281-315 | Resets exhausted peers if so configured, then lists exactly the due ones, each once. |
| `Reconnection.ReconnectionManager.RecordAttempt` | src/reconnect.rs:320-338 | Counts the attempt and its time. |
| `Reconnection.ReconnectionManager.OnConnectionSuccess` | src/reconnect.rs:343-350 | Forgets the address. |
| `Reconnection.CallTells` | src/reconnect.rs:213-362 | Listing resets exactly the exhausted peers, if so configured; else nothing changes but that an attempt counts one more; a peer is tracked from its disconnection, with no attempts, until it is forgotten. |
| `Reconnection.DelayMonotone` | src/reconnect.rs:266-274 | With a base below 2^34 ms the delay never shrinks from one attempt to a later one and never passes the maximum. |
| `Reconnection.MonotoneExactly` | src/reconnect.rs:266-274 | For every base and every maximum, the exponential delay is non-decreasing if and only if each of the thirty products that overflows 64 bits wraps to the maximum or more. |
| `Reconnection.DelayAsDocumented` | src/reconnect.rs:266-274 | For every base and maximum, the delay is the documented min(base * 2^attempts, max) at an attempt up to thirty if and only if the product fits 64 bits or wraps to the maximum or more; beyond thirty if and only if the base is zero or the product at thirty wraps to the maximum or more. |
| `Reconnection.LeastOverflow` | src/reconnect.rs:266-274 | No product overflows exactly for bases below 2^34 ms, and a base of exactly that waits nothing at attempt thirty. |
| `Reconnection.ReadyMeansListed` | src/reconnect.rs:228-315 | Ready coincides with being listed if and only if at least one attempt is allowed, reset is off, or the address is not tracked. |
| `Reconnection.WaitingExact` | src/reconnect.rs:228-260 | The announced waiting time is positive and exact. |
| `Reconnection.BackoffKept` | src/reconnect.rs:228-338 | Attempts made only when ready, reset off: the k-th comes no earlier than the first plus the delays in between, and there are never more than the maximum, whatever else is called. |
| `Beacons.EncodeInto` | src/discovery/beacon.rs:143-180 | The buffer-filling encoder produces the specified 16 bytes. |
| `Beacons.EncodeCompactInto` | src/discovery/beacon.rs:191-210 | The compact encoder produces the specified 10 bytes. |
| `Beacons.BeaconRoundTrip` | src/discovery/beacon.rs:143-245 | A beacon decodes from its full form, followed by anything, if and only if version, capabilities and geohash fit 4, 12 and 24 bits. |
| `Beacons.CompactRoundTrip` | src/discovery/beacon.rs:191-276 | The compact form brings back everything but the geohash if and only if version and capabilities fit. |
| `Beacons.CompactReencodes` | src/discovery/beacon.rs:248-276 | Re-encoding a decoded compact beacon reproduces its bytes, except that unknown levels become the lowest. |
| `Advertising.Advertiser.constructor` | src/discovery/advertiser.rs:142-159 | A new advertiser is idle with a dirty cache. |
| `Advertising.Advertiser.PeatLite` | src/discovery/advertiser.rs:162-179 | The same with the lite-node capability. |
| `Advertising.Advertiser.SetTimeMs` | src/discovery/advertiser.rs:182-184 | Sets the time and keeps the cache. |
| `Advertising.Advertiser.SetTxPower` | src/discovery/advertiser.rs:187-191 | Sets the power and dirties the cache. |
| `Advertising.Advertiser.SetName` | src/discovery/advertiser.rs:194-198 | Sets the name and dirties the cache. |
| `Advertising.Advertiser.SetExtendedAdvertising` | src/discovery/advertiser.rs:201-205 | Sets extended advertising and dirties the cache. |
| `Advertising.Advertiser.EditBeaconInPlace` | src/discovery/advertiser.rs:255-258 | Whatever the beacon becomes, the cache is dirty. |
| `Advertising.Advertiser.SetHierarchyLevel` | src/discovery/advertiser.rs:261-264 | Sets the level and dirties the cache. |
| `Advertising.Advertiser.SetCapabilities` | src/discovery/advertiser.rs:267-270 | Sets the capabilities and dirties the cache. |
| `Advertising.Advertiser.SetBattery` | src/discovery/advertiser.rs:273-276 | Sets the battery, at most 100, and dirties the cache. |
| `Advertising.Advertiser.SetGeohash` | src/discovery/advertiser.rs:279-282 | Sets the low 24 bits of the geohash and dirties the cache. |
| `Advertising.Advertiser.IncrementSequence` | src/discovery/advertiser.rs:315-318 | Moves the sequence number, wrapping, and dirties the cache. |
| `Advertising.Advertiser.Start` | src/discovery/advertiser.rs:285-288 | Starts now; the cache stays. |
| `Advertising.Advertiser.Pause` | src/discovery/advertiser.rs:291-293 | Pauses; the cache stays. |
| `Advertising.Advertiser.Resume` | src/discovery/advertiser.rs:296-300 | Resumes only from a pause. |
| `Advertising.Advertiser.Stop` | src/discovery/advertiser.rs:303-306 | Stops; the cache stays. |
| `Advertising.Advertiser.BuildPacket` | src/discovery/advertiser.rs:323-330 | Returns a packet equal to a fresh build, from the cache when it is clean. |
| `Advertising.Advertiser.RebuildPacket` | src/discovery/advertiser.rs:333-336 | Returns a fresh build. |
| `Advertising.Advertiser.BuildPacketInner` | src/discovery/advertiser.rs:339-437 | Pushes together the specified packet. |
| `Advertising.PushTxPower` | src/discovery/advertiser.rs:393-404 | Puts the power into the advertisement if three more bytes fit, else into the scan response. |
| `Advertising.PushName` | src/discovery/advertiser.rs:407-423 | Appends the whole name, or its first 29 bytes as a shortened one. |
| `Advertising.CacheCoherent` | src/discovery/advertiser.rs:187-330 | After any sequence of calls a clean cache holds what a fresh build would give. |
| `Advertising.BuiltPacketCurrent` | src/discovery/advertiser.rs:323-437 | After any calls the packet is a fresh one; bytes 11 to 21 decode to the current beacon without geohash if and only if version and capabilities fit; both parts fit 31 bytes; it is marked extended exactly when that was asked for. |
| `Advertising.CallTells` | src/discovery/advertiser.rs:187-330 | After any call each setting is the last one set of its kind, the battery at most a hundred and the geohash in 24 bits; only what a packet shows dirties the cache and only building cleans it. |
| `Advertising.PhaseTells` | src/discovery/advertiser.rs:187-330 | Advertising is on from a start, or a resume after a pause, until a pause or stop; the start time is that of the last start not stopped since. |
| `Advertising.SequenceCounts` | src/discovery/advertiser.rs:315-318 | After any calls the sequence number is that of the last edited beacon plus the increments since, in 16 bits. |
| `Advertising.PacketTells` | src/discovery/advertiser.rs:339-437 | The power set reads back from the advertisement, which else is the beacon's elements alone; the scan response is one element with the whole name or its first 29 bytes marked as shortened, and is there exactly if there is a name. |
| `Advertising.ScannerFallsShort` | src/discovery/advertiser.rs:339-437 | The length written for the service data leaves out its type byte: a scanner that goes by the lengths never reads a whole beacon, and never finds the power. |

## Left out

- Encryption, identity, key exchange and end-to-end sessions: bytes with their markers are recognised and left aside.
- Delta documents, except their app operations: for counters and emergencies that branch only sets flags.
- PeatMeshObject.PeatMesh.ProcessDocumentData: does not say what the document merges into the mesh's own synchroniser; the mesh model keeps only whose document arrived, and the merge is `DocumentSyncs.DocumentSync.MergeDocument`.
- PeatMeshObject.PeatMesh.ProcessIncomingDocument: the same.
- Counter, emergency and peripheral fields of reports to the platform, transfer statistics, callsigns of indirect peers, and observer events other than lost peers.
- Chat, locations and other floating-point data; peripherals are opaque.
- Encrypted advertising with its random nonces.
- `get_peer_mut`, which hands out a peer record for arbitrary change.
- The connection count's 32-bit overflow: it is an unbounded number here.
- The order in which hash maps list their entries is left open: eviction among entries of equal age and the order of reconnection lists are any.
- Locking and interleaving of calls: one step per public call; `on_ble_disconnected` and `on_peer_disconnected`, which read the system clock, take the same clock as every other call.
- The document wire header of the registry (`decode_header`): it would only add easy members.
- The canned message itself, with its codec, merge and acknowledgement: it belongs to another library and is not part of this model; `CannedMessages` takes it as given from outside.
- `should_forward`, the broadcast-all and emergency-aware strategies: easy members.
- `tick_with_peer_deltas`, which runs the same maintenance and sync timer as `tick` and differs in what it sends.
- The library versions without the standard library.
- Address rotation, peer lifetime, persistence, transport and platform adapters.
