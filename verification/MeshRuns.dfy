/** What one mesh node keeps over every run of its callbacks, on one positive non-decreasing clock:
    the peer manager and the connection graph, driven separately, agree. */
module MeshRuns {
  import opened Common
  import opened Relay
  import SeenCache
  import opened Peers
  import opened PeerGraph
  import opened GraphRuns
  import opened PeerManagement
  import opened Mesh

  // Everything that can happen at a node apart from receiving relayed envelopes.
  datatype LocalCall =
    | BleDiscovered(identifier: string, name: Option<string>, rssi: i8, meshId: Option<string>)
    | BleConnected(identifier: string)
    | BleDisconnected(identifier: string, reason: DisconnectReason)
    | PeerDisconnected(id: NodeId, reason: DisconnectReason)
    | IncomingConnection(identifier: string, id: NodeId)
    | DirectDocument(identifier: string, author: Option<NodeId>)
    | KnownDocument(source: NodeId, author: Option<NodeId>)
    | AnonymousDocument(identifier: string, source: NodeId)
    | CleanupIndirectPeers
    | ClearSeenCache
    | TickCall

  function Perform(m: MeshState, call: LocalCall, nowMs: u64): (r: MeshState) {
    match call
    case BleDiscovered(identifier, name, rssi, meshId) => OnBleDiscovered(m, identifier, name, rssi, meshId, nowMs)
    case BleConnected(identifier) => OnBleConnected(m, identifier, nowMs)
    case BleDisconnected(identifier, reason) => OnBleDisconnected(m, identifier, reason, nowMs)
    case PeerDisconnected(id, reason) => OnPeerDisconnected(m, id, reason, nowMs)
    case IncomingConnection(identifier, id) => OnIncomingConnection(m, identifier, id, nowMs)
    case DirectDocument(identifier, author) => OnDirectDocument(m, identifier, author, nowMs)
    case KnownDocument(source, author) => OnKnownDocument(m, source, author, nowMs)
    case AnonymousDocument(identifier, source) =>
      m.(manager := m.manager.RegisterIdentifier(identifier, source).RecordSync(source, nowMs))
    case CleanupIndirectPeers => m.(graph := m.graph.CleanupIndirect(nowMs))
    case ClearSeenCache => m.(seen := m.seen.(entries := map[]))
    case TickCall => Ticked(m, nowMs)
  }

  // ---------- The invariant across components ----------

  // The graph's record of a tracked peer is at least as recent as the manager's, and knows it as
  // connected whenever the manager does.
  predicate Agree(tracked: PeatPeer, known: PeerConnectionState) {
    && 0 < tracked.lastSeenMs <= known.lastSeenMs
    && (tracked.isConnected ==> known.state.IsConnected())
  }

  ghost predicate MeshKept(m: MeshState, clock: u64) {
    && ManagerKept(m.manager)
    && m.manager.nodeId == m.config.nodeId && m.manager.config == m.config.peer
    && GraphKept(m.graph)
    && m.config.nodeId !in m.graph.peers && m.config.nodeId !in m.graph.indirect
    && PeersAgree(m.manager.peers, m.graph.peers, clock)
  }

  ghost predicate PeersAgree(tracked: TrackedPeers, known: PeerStates, clock: u64) {
    forall id :: id in tracked ==>
      && id in known
      && Agree(tracked[id], known[id])
      && tracked[id].lastSeenMs <= clock
  }

  lemma NewMeshKept(config: MeshConfig)
    ensures MeshKept(NewMesh(config), 0)
  {
  }

  // ---------- One callback at a time ----------

  lemma DiscoveredKeeps(m: MeshState, identifier: string, name: Option<string>, rssi: i8, meshId: Option<string>,
                        clock: u64, nowMs: u64)
    requires MeshKept(m, clock) && 0 < nowMs && clock <= nowMs
    ensures MeshKept(OnBleDiscovered(m, identifier, name, rssi, meshId, nowMs), nowMs)
  {
    var (after, found) := m.manager.OnDiscovered(identifier, name, rssi, meshId, nowMs);
    DiscoveryKeeps(m.manager, identifier, name, rssi, meshId, nowMs);
    DiscoveryAdmits(m.manager, identifier, name, rssi, meshId, nowMs);
    match found
    case None => FoundNobody(m, after, clock, nowMs);
    case Some((id, _)) => FoundKeeps(m, after, id, identifier, name, rssi, meshId, clock, nowMs);
  }

  // Some peers may have gone.
  lemma FoundNobody(m: MeshState, after: Manager, clock: u64, nowMs: u64)
    requires MeshKept(m, clock) && clock <= nowMs
    requires ManagerKept(after) && after.nodeId == m.manager.nodeId && after.config == m.manager.config
    requires forall id :: id in after.peers ==> id in m.manager.peers && after.peers[id] == m.manager.peers[id]
    ensures MeshKept(m.(manager := after), nowMs)
  {
  }

  // Some peers may have gone, and one was seen now, by the manager and by the graph.
  lemma FoundKeeps(m: MeshState, after: Manager, id: NodeId, identifier: string, name: Option<string>, rssi: i8,
                   meshId: Option<string>, clock: u64, nowMs: u64)
    requires MeshKept(m, clock) && 0 < nowMs && clock <= nowMs
    requires ManagerKept(after) && after.nodeId == m.manager.nodeId && after.config == m.manager.config
    requires forall k :: k in after.peers && k != id ==> k in m.manager.peers && after.peers[k] == m.manager.peers[k]
    requires id != m.manager.nodeId && id in after.peers && after.peers[id].lastSeenMs == nowMs
    requires after.peers[id].isConnected ==> id in m.manager.peers && m.manager.peers[id].isConnected
    ensures MeshKept(m.(manager := after, graph := m.graph.OnDiscovered(id, identifier, name, meshId, rssi, nowMs)), nowMs)
  {
    ApplyKeeps(m.graph, Discover(id, identifier, name, meshId, rssi, nowMs));
    if id in m.manager.peers {
      assert Agree(m.manager.peers[id], m.graph.peers[id]);
    }
  }

  // What a discovery does to the tracked peers: some may go, and one, seen now, is there.
  lemma DiscoveryAdmits(m: Manager, identifier: string, name: Option<string>, rssi: i8, meshId: Option<string>, nowMs: u64)
    ensures var (after, found) := m.OnDiscovered(identifier, name, rssi, meshId, nowMs);
      && after.nodeId == m.nodeId && after.config == m.config
      && (forall id :: id in after.peers && (found.None? || id != found.value.0) ==>
            id in m.peers && after.peers[id] == m.peers[id])
      && (found.Some? ==>
            && found.value.0 != m.nodeId
            && found.value.0 in after.peers && after.peers[found.value.0].lastSeenMs == nowMs
            && (after.peers[found.value.0].isConnected ==>
                  found.value.0 in m.peers && m.peers[found.value.0].isConnected))
  {
  }

  lemma ConnectedKeeps(m: MeshState, identifier: string, clock: u64, nowMs: u64)
    requires MeshKept(m, clock) && 0 < nowMs && clock <= nowMs
    ensures MeshKept(OnBleConnected(m, identifier, nowMs), nowMs)
  {
    ConnectionKeeps(m.manager, identifier, 0, nowMs);
    if identifier in m.manager.identifiers {
      ApplyKeeps(m.graph, Connect(m.manager.identifiers[identifier], nowMs));
    }
  }

  lemma SeveredGraphKept(g: Graph, id: NodeId, reason: DisconnectReason, nowMs: u64)
    requires GraphKept(g)
    ensures GraphKept(Severed(g, id, reason, nowMs))
    ensures Severed(g, id, reason, nowMs).peers == g.OnDisconnected(id, reason, nowMs).peers
    ensures Severed(g, id, reason, nowMs).indirect.Keys <= g.indirect.Keys
  {
    ApplyKeeps(g, Disconnect(id, reason, nowMs));
    ApplyKeeps(g.OnDisconnected(id, reason, nowMs), RemoveVia(id));
  }

  lemma SeveredKeeps(m: MeshState, id: NodeId, reason: DisconnectReason, clock: u64, nowMs: u64)
    requires MeshKept(m, clock) && 0 < nowMs && clock <= nowMs
    ensures MeshKept(m.(manager := m.manager.OnDisconnectedNode(id), graph := Severed(m.graph, id, reason, nowMs)), nowMs)
  {
    ConnectionKeeps(m.manager, "", id, nowMs);
    SeveredGraphKept(m.graph, id, reason, nowMs);
    assert PeersAgree(m.manager.OnDisconnectedNode(id).peers, m.graph.OnDisconnected(id, reason, nowMs).peers, nowMs);
  }

  lemma IncomingConnectionKeeps(m: MeshState, identifier: string, id: NodeId, clock: u64, nowMs: u64)
    requires MeshKept(m, clock) && 0 < nowMs && clock <= nowMs
    ensures MeshKept(OnIncomingConnection(m, identifier, id, nowMs), nowMs)
  {
    IncomingKeeps(m.manager, identifier, id, nowMs);
    MetKeeps(m.graph, identifier, id, m.config.meshId, nowMs);
  }

  // Graph updates of an incoming connection, for a new or an already tracked peer.
  lemma MetKeeps(g: Graph, identifier: string, id: NodeId, meshId: string, nowMs: u64)
    requires GraphKept(g)
    ensures GraphKept(g.OnConnected(id, nowMs))
    ensures GraphKept(g.OnDiscovered(id, identifier, None, Some(meshId), -50, nowMs).OnConnected(id, nowMs))
  {
    var discover := Discover(id, identifier, None, Some(meshId), -50, nowMs);
    ApplyKeeps(g, discover);
    ApplyKeeps(g, Connect(id, nowMs));
    ApplyKeeps(Apply(g, discover), Connect(id, nowMs));
  }

  // The order within the tick matters: whoever the graph is about to forget was stale already
  // for the manager, and the fresh losses are too recent to be forgotten.
  lemma TickKeeps(m: MeshState, clock: u64, nowMs: u64)
    requires MeshKept(m, clock) && 0 < nowMs && clock <= nowMs
    ensures MeshKept(Ticked(m, nowMs), nowMs)
  {
    if CleanupFires(m, nowMs) {
      var after := Ticked(m, nowMs);
      MaintainedAgree(m, clock, nowMs);
      assert ManagerKept(after.manager) by {
        CleanupKeeps(m.manager, nowMs);
      }
      assert GraphKept(after.graph) by {
        MaintainedGraphKept(m.graph, m.config.peer.peerTimeoutMs, nowMs);
      }
      assert after.graph.peers.Keys <= m.graph.peers.Keys && after.graph.indirect == m.graph.indirect;
    }
  }

  lemma MaintainedGraphKept(g: Graph, olderThanMs: u64, nowMs: u64)
    requires GraphKept(g)
    ensures GraphKept(g.Tick(nowMs).CleanupLost(olderThanMs, nowMs))
  {
    ApplyKeeps(g, GraphCall.Tick(nowMs));
    ApplyKeeps(g.Tick(nowMs), GraphCall.CleanupLost(olderThanMs, nowMs));
  }

  lemma MaintainedAgree(m: MeshState, clock: u64, nowMs: u64)
    requires MeshKept(m, clock) && 0 < nowMs && clock <= nowMs
    ensures PeersAgree(m.manager.CleanupStale(nowMs).peers,
                       m.graph.Tick(nowMs).CleanupLost(m.config.peer.peerTimeoutMs, nowMs).peers, nowMs)
  {
    var ticked := m.graph.Tick(nowMs);
    forall id | id in m.manager.CleanupStale(nowMs).peers
      ensures id in ticked.peers && id !in ticked.LongLost(m.config.peer.peerTimeoutMs, nowMs)
      ensures Agree(m.manager.peers[id], ticked.peers[id])
    {
      assert !m.manager.peers[id].IsStale(nowMs, m.config.peer.peerTimeoutMs);
      assert Agree(m.manager.peers[id], m.graph.peers[id]);
    }
  }

  lemma LearnKeeps(m: MeshState, entry: Entry, env: RelayEnvelope, clock: u64, nowMs: u64)
    requires MeshKept(m, clock) && 0 < nowMs && clock <= nowMs
    ensures MeshKept(Learn(m, entry, env, nowMs), nowMs)
  {
    var source := SourceOf(m, entry);
    if source.Some? {
      RelayReceivedKeeps(m.graph, source.value, env.originNode, env.hopCount, nowMs);
    }
  }

  lemma HandlesKeeps(m: MeshState, entry: Entry, env: RelayEnvelope, author: Option<NodeId>, clock: u64, nowMs: u64,
                     m': MeshState, isNew: bool, result: Option<Received>)
    requires MeshKept(m, clock) && 0 < nowMs && clock <= nowMs
    requires Handles(m, entry, env, author, nowMs, m', isNew, result)
    ensures MeshKept(m', nowMs)
  {
    LearnKeeps(m, entry, env, clock, nowMs);
  }

  lemma DirectDocumentKeeps(m: MeshState, identifier: string, author: Option<NodeId>, clock: u64, nowMs: u64)
    requires MeshKept(m, clock) && 0 < nowMs && clock <= nowMs
    ensures MeshKept(OnDirectDocument(m, identifier, author, nowMs), nowMs)
  {
    if author.Some? {
      IncomingConnectionKeeps(m.(manager := m.manager.RecordSync(author.value, nowMs)), identifier, author.value, clock, nowMs);
    }
  }

  lemma BleDisconnectedKeeps(m: MeshState, identifier: string, reason: DisconnectReason, clock: u64, nowMs: u64)
    requires MeshKept(m, clock) && 0 < nowMs && clock <= nowMs
    ensures MeshKept(OnBleDisconnected(m, identifier, reason, nowMs), nowMs)
  {
    if identifier in m.manager.identifiers {
      SeveredKeeps(m, m.manager.identifiers[identifier], reason, clock, nowMs);
    }
  }

  lemma IndirectCleanupKeeps(m: MeshState, clock: u64, nowMs: u64)
    requires MeshKept(m, clock) && 0 < nowMs && clock <= nowMs
    ensures MeshKept(m.(graph := m.graph.CleanupIndirect(nowMs)), nowMs)
  {
    ApplyKeeps(m.graph, CleanupIndirect(nowMs));
  }

  // Every callback keeps the invariant.
  lemma PerformKeeps(m: MeshState, call: LocalCall, clock: u64, nowMs: u64)
    requires MeshKept(m, clock) && 0 < nowMs && clock <= nowMs
    ensures MeshKept(Perform(m, call, nowMs), nowMs)
  {
    match call
    case BleDiscovered(identifier, name, rssi, meshId) => DiscoveredKeeps(m, identifier, name, rssi, meshId, clock, nowMs);
    case BleConnected(identifier) => ConnectedKeeps(m, identifier, clock, nowMs);
    case BleDisconnected(identifier, reason) => BleDisconnectedKeeps(m, identifier, reason, clock, nowMs);
    case PeerDisconnected(id, reason) => SeveredKeeps(m, id, reason, clock, nowMs);
    case IncomingConnection(identifier, id) => IncomingConnectionKeeps(m, identifier, id, clock, nowMs);
    case DirectDocument(identifier, author) => DirectDocumentKeeps(m, identifier, author, clock, nowMs);
    case CleanupIndirectPeers => IndirectCleanupKeeps(m, clock, nowMs);
    case TickCall => TickKeeps(m, clock, nowMs);
    case _ =>
  }

  // ---------- Whole runs of one node ----------

  // What a node does at one moment: a local call, or handling an envelope.
  datatype Act =
    | Local(call: LocalCall)
    | Envelope(entry: Entry, env: RelayEnvelope, author: Option<NodeId>, isNew: bool, result: Option<Received>)

  ghost predicate Acts(m: MeshState, act: Act, nowMs: u64, m': MeshState) {
    match act
    case Local(call) => m' == Perform(m, call, nowMs)
    case Envelope(entry, env, author, isNew, result) => Handles(m, entry, env, author, nowMs, m', isNew, result)
  }

  lemma ActKeeps(m: MeshState, act: Act, clock: u64, nowMs: u64, m': MeshState)
    requires MeshKept(m, clock) && 0 < nowMs && clock <= nowMs
    requires Acts(m, act, nowMs, m')
    ensures MeshKept(m', nowMs)
  {
    match act
    case Local(call) => PerformKeeps(m, call, clock, nowMs);
    case Envelope(entry, env, author, isNew, result) =>
      HandlesKeeps(m, entry, env, author, clock, nowMs, m', isNew, result);
  }

  // A run of one node: the moments so far, each with the clock it happened at and the state after it.
  datatype NodeRun = Started | Then(before: NodeRun, act: Act, nowMs: u64, after: MeshState)
  {
    function State(config: MeshConfig): (r: MeshState) {
      if Started? then NewMesh(config) else after
    }

    function Clock(): (r: u64) {
      if Started? then 0 else nowMs
    }

    // Each moment follows from the one before, on a positive clock that never goes back.
    ghost predicate Happens(config: MeshConfig) {
      Then? ==>
        && before.Happens(config)
        && 0 < nowMs && before.Clock() <= nowMs
        && Acts(before.State(config), act, nowMs, after)
    }
  }

  // In every reachable state the two components agree, we never track ourselves, and capacity holds.
  lemma {:induction false} EveryReachableMeshKept(config: MeshConfig, run: NodeRun)
    requires run.Happens(config)
    ensures MeshKept(run.State(config), run.Clock())
  {
    match run
    case Started => NewMeshKept(config);
    case Then(before, act, now, after) =>
      EveryReachableMeshKept(config, before);
      ActKeeps(before.State(config), act, before.Clock(), now, after);
  }

  // ---------- Reports of lost peers ----------

  lemma {:induction false} NotInExact(ks: seq<NodeId>, s: set<NodeId>)
    requires Increasing(ks)
    ensures Increasing(NotIn(ks, s)) && Elements(NotIn(ks, s)) == Elements(ks) - s
  {
    if ks != [] {
      var init, last := ks[..|ks| - 1], ks[|ks| - 1];
      NotInExact(init, s);
      assert ks == init + [last];
      LastElement(init, last);
      LastElement(NotIn(init, s), last);
      forall i | 0 <= i < |NotIn(init, s)| ensures NotIn(init, s)[i] < last {
        assert NotIn(init, s)[i] in Elements(NotIn(init, s));
        assert NotIn(init, s)[i] in Elements(init);
      }
    }
  }

  lemma LastElement(init: seq<NodeId>, last: NodeId)
    ensures Elements(init + [last]) == Elements(init) + {last}
  {
  }

  // One tick reports each lost peer once: exactly those the manager dropped or the graph just
  // declared lost.
  lemma TickReportsOnce(m: MeshState, nowMs: u64)
    requires CleanupFires(m, nowMs)
    ensures NoDuplicates(LostEvents(m, nowMs))
    ensures Elements(LostEvents(m, nowMs)) == m.manager.Stale(nowMs) + m.graph.NewlyLost(nowMs)
  {
    ReportsOnce(m.manager.Stale(nowMs), m.graph.NewlyLost(nowMs));
  }

  lemma ReportsOnce(stale: set<NodeId>, fallen: set<NodeId>)
    ensures NoDuplicates(Ascending(stale) + NotIn(Ascending(fallen), stale))
    ensures Elements(Ascending(stale) + NotIn(Ascending(fallen), stale)) == stale + fallen
  {
    AscendingListing(stale);
    AscendingListing(fallen);
    NotInExact(Ascending(fallen), stale);
    Joined(Ascending(stale), NotIn(Ascending(fallen), stale));
  }

  // A tick forgets no peer it has just declared lost.
  lemma TickKeepsFreshLosses(m: MeshState, nowMs: u64, id: NodeId)
    requires CleanupFires(m, nowMs) && id in m.graph.NewlyLost(nowMs)
    ensures IsLost(Ticked(m, nowMs).graph, id)
  {
    FreshLossSurvives(m.graph, nowMs, m.config.peer.peerTimeoutMs, id);
  }

  lemma Joined(a: seq<NodeId>, b: seq<NodeId>)
    requires Increasing(a) && Increasing(b) && Elements(a) !! Elements(b)
    ensures NoDuplicates(a + b) && Elements(a + b) == Elements(a) + Elements(b)
  {
    forall i, j | 0 <= i < |a| && 0 <= j < |b| ensures a[i] != b[j] {
      assert a[i] in Elements(a) && b[j] in Elements(b);
    }
  }
}
