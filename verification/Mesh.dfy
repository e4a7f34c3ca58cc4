/** The mesh facade (src/peat_mesh.rs): what each platform callback, relayed envelope and tick does
    to the peer manager, the connection graph, the seen cache and the two timers together. */
module Mesh {
  import opened Common
  import opened Relay
  import opened SeenCache
  import opened Peers
  import opened PeerGraph
  import opened PeerManagement

  datatype MeshConfig = MeshConfig(
    nodeId: NodeId,
    meshId: string,
    peer: ManagerConfig,
    syncIntervalMs: u64,
    enableRelay: bool,
    maxRelayHops: u8,
    relayFanout: nat,
    seenTtlMs: u64)
  {
    // The gossip fanout, never below one.
    function Fanout(): (r: nat) {
      if relayFanout < 1 then 1 else relayFanout
    }
  }

  datatype MeshState = MeshState(
    config: MeshConfig,
    manager: Manager,
    graph: Graph,
    seen: Cache,
    lastSync: u32,
    lastCleanup: u32)

  function NewMesh(config: MeshConfig): (r: MeshState) {
    MeshState(config, NewManager(config.nodeId, config.peer),
              NewGraph(config.peer.rssiDegradedThreshold, config.peer.lostTimeoutMs),
              SeenCache.Empty(config.seenTtlMs), 0, 0)
  }

  // ---------- Platform callbacks ----------

  function OnBleDiscovered(m: MeshState, identifier: string, name: Option<string>, rssi: i8, meshId: Option<string>,
                           nowMs: u64): (r: MeshState)
  {
    var (manager, found) := m.manager.OnDiscovered(identifier, name, rssi, meshId, nowMs);
    match found
    case None => m.(manager := manager)
    case Some((id, _)) =>
      m.(manager := manager, graph := m.graph.OnDiscovered(id, identifier, name, meshId, rssi, nowMs))
  }

  function OnBleConnected(m: MeshState, identifier: string, nowMs: u64): (r: MeshState) {
    if identifier !in m.manager.identifiers then m
    else
      m.(manager := m.manager.OnConnected(identifier, nowMs),
         graph := m.graph.OnConnected(m.manager.identifiers[identifier], nowMs))
  }

  // The direct connection is down, and so is every route that began with it.
  function Severed(g: Graph, id: NodeId, reason: DisconnectReason, nowMs: u64): (r: Graph) {
    g.OnDisconnected(id, reason, nowMs).RemoveViaPeer(id)
  }

  function OnBleDisconnected(m: MeshState, identifier: string, reason: DisconnectReason, nowMs: u64): (r: MeshState) {
    if identifier !in m.manager.identifiers then m
    else
      m.(manager := m.manager.OnDisconnected(identifier),
         graph := Severed(m.graph, m.manager.identifiers[identifier], reason, nowMs))
  }

  function OnPeerDisconnected(m: MeshState, id: NodeId, reason: DisconnectReason, nowMs: u64): (r: MeshState) {
    if id !in m.manager.peers then m
    else m.(manager := m.manager.OnDisconnectedNode(id), graph := Severed(m.graph, id, reason, nowMs))
  }

  function OnIncomingConnection(m: MeshState, identifier: string, id: NodeId, nowMs: u64): (r: MeshState) {
    var isNew := m.manager.AcceptsIncoming(id) && id !in m.manager.peers;
    var known := if isNew
                 then m.graph.OnDiscovered(id, identifier, None, Some(m.config.meshId), -50, nowMs)
                 else m.graph;
    m.(manager := m.manager.OnIncomingConnection(identifier, id, nowMs), graph := known.OnConnected(id, nowMs))
  }

  // A document from a known node: a sync with that node is recorded.
  function OnKnownDocument(m: MeshState, source: NodeId, author: Option<NodeId>, nowMs: u64): (r: MeshState) {
    if author.None? || author.value == m.config.nodeId then m
    else m.(manager := m.manager.RecordSync(source, nowMs))
  }

  // A document received directly: its author, unless ourselves, is registered as connected.
  function OnDirectDocument(m: MeshState, identifier: string, author: Option<NodeId>, nowMs: u64): (r: MeshState) {
    if author.None? || author.value == m.config.nodeId then m
    else OnIncomingConnection(m.(manager := m.manager.RecordSync(author.value, nowMs)), identifier, author.value, nowMs)
  }

  // ---------- Relayed envelopes ----------

  // The three ways an envelope comes in: from a known node, from a known identifier, or from any
  // identifier at all.
  datatype Entry =
    | FromNode(source: NodeId)
    | FromIdentifier(identifier: string)
    | FromAnyone(identifier: string)

  // The node an identifier is mapped to.
  function NodeOf(m: MeshState, identifier: string): (node: Option<NodeId>) {
    if identifier in m.manager.identifiers then Some(m.manager.identifiers[identifier]) else None
  }

  function SourceOf(m: MeshState, entry: Entry): (source: Option<NodeId>) {
    match entry
    case FromNode(source) => Some(source)
    case FromIdentifier(identifier) => NodeOf(m, identifier)
    case FromAnyone(identifier) => NodeOf(m, identifier)
  }

  // What the mesh reports to the platform about one received document.
  datatype Received = Received(source: NodeId, relay: Option<RelayEnvelope>, origin: Option<NodeId>, hopCount: u8)

  // Envelopes from another origin than their sender teach a route; the identifier path never learns.
  function Learn(m: MeshState, entry: Entry, env: RelayEnvelope, nowMs: u64): (r: MeshState) {
    var source := SourceOf(m, entry);
    if entry.FromIdentifier? || source.None? || env.originNode == source.value || env.originNode == m.config.nodeId
    then m
    else m.(graph := m.graph.OnRelayReceived(source.value, env.originNode, env.hopCount, nowMs))
  }

  // The node whose sync is recorded: the sender, or on the anonymous path the author.
  function SyncedWith(m: MeshState, entry: Entry, author: NodeId): (r: NodeId)
    requires !entry.FromAnyone? ==> SourceOf(m, entry).Some?
  {
    if entry.FromAnyone? then author else SourceOf(m, entry).value
  }

  predicate Unreachable(m: MeshState, entry: Entry) {
    entry.FromIdentifier? && SourceOf(m, entry).None?
  }

  function Forwarded(m: MeshState, env: RelayEnvelope): (r: Option<RelayEnvelope>) {
    if m.config.enableRelay then env.Relay() else None
  }

  // One envelope handled. author names who wrote the document inside, if it decrypts and parses;
  // isNew is the seen cache's verdict.
  ghost predicate Handles(m: MeshState, entry: Entry, env: RelayEnvelope, author: Option<NodeId>, nowMs: u64,
                          m': MeshState, isNew: bool, result: Option<Received>)
  {
    && !Unreachable(m, entry)
    && Marks(m.seen, env.messageId, env.originNode, nowMs, m'.seen, isNew)
    && var learned := Learn(m, entry, env, nowMs).(seen := m'.seen);
       if !isNew || author.None? || author.value == m.config.nodeId then m' == learned && result == None
       else
         && m' == learned.(manager := m.manager.RecordSync(SyncedWith(m, entry, author.value), nowMs))
         && result == Some(Received(author.value, Forwarded(m, env), Some(env.originNode), env.hopCount))
  }

  // The connected peers a selection may choose from.
  function Eligible(m: MeshState, exclude: Option<NodeId>): (ids: set<NodeId>) {
    if exclude.Some? then m.manager.ConnectedIds() - {exclude.value} else m.manager.ConnectedIds()
  }

  // What the gossip strategy may answer when asked whom to relay to: connected peers, each at most
  // once and never the excluded one, at most the fanout; all of them if there are no more than
  // that, and at least one if there is any.
  ghost predicate RelayTargets(m: MeshState, exclude: Option<NodeId>, targets: seq<NodeId>) {
    && |targets| <= m.config.Fanout()
    && NoDuplicates(targets)
    && (forall i :: 0 <= i < |targets| ==> targets[i] in Eligible(m, exclude))
    && (|Eligible(m, exclude)| <= m.config.Fanout() ==> Elements(targets) == Eligible(m, exclude))
    && (Eligible(m, exclude) != {} ==> targets != [])
  }

  // ---------- The tick ----------

  // Elapsed time on the 32-bit timers, which wrap.
  function Elapsed32(nowMs: u64, last: u32): (r: u32) {
    (nowMs - last) % U32_RANGE
  }

  predicate TimerFires(nowMs: u64, last: u32, intervalMs: u64) {
    Elapsed32(nowMs, last) >= intervalMs % U32_RANGE
  }

  predicate CleanupFires(m: MeshState, nowMs: u64) {
    TimerFires(nowMs, m.lastCleanup, m.config.peer.cleanupIntervalMs)
  }

  predicate SyncFires(m: MeshState, nowMs: u64) {
    TimerFires(nowMs, m.lastSync, m.config.syncIntervalMs)
  }

  // Stale peers leave the manager before the graph marks losses and forgets old ones.
  function Maintained(m: MeshState, nowMs: u64): (r: MeshState) {
    if !CleanupFires(m, nowMs) then m
    else
      m.(lastCleanup := nowMs % U32_RANGE,
         manager := m.manager.CleanupStale(nowMs),
         graph := m.graph.Tick(nowMs).CleanupLost(m.config.peer.peerTimeoutMs, nowMs))
  }

  function Ticked(m: MeshState, nowMs: u64): (r: MeshState) {
    var maintained := Maintained(m, nowMs);
    if SyncFires(m, nowMs) then maintained.(lastSync := nowMs % U32_RANGE) else maintained
  }

  // The listed nodes outside s, in order.
  function NotIn(ks: seq<NodeId>, s: set<NodeId>): (r: seq<NodeId>) {
    if ks == [] then []
    else
      var rest := NotIn(ks[..|ks| - 1], s);
      var last := ks[|ks| - 1];
      if last in s then rest else rest + [last]
  }

  // The peers reported lost: those the manager removed, then the newly lost it did not remove.
  function LostEvents(m: MeshState, nowMs: u64): (r: seq<NodeId>) {
    if !CleanupFires(m, nowMs) then []
    else
      Ascending(m.manager.Stale(nowMs))
      + NotIn(Ascending(m.graph.NewlyLost(nowMs)), m.manager.Stale(nowMs))
  }

  predicate Broadcasts(m: MeshState, nowMs: u64) {
    SyncFires(m, nowMs) && Maintained(m, nowMs).manager.ConnectedIds() != {}
  }
}
