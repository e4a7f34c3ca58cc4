/** The peer manager (src/peer_manager.rs): tracked peers, the identifier map and the sync history.
    Functions on Manager values say what each call does; the class performs it in place. */
module PeerManagement {
  import opened Common
  import opened Peers
  import opened DeviceNames

  datatype ManagerConfig = ManagerConfig(
    peerTimeoutMs: u64,
    cleanupIntervalMs: u64,
    syncCooldownMs: u64,
    meshId: string,
    maxPeers: nat,
    rssiDegradedThreshold: i8,
    lostTimeoutMs: u64)
  {
    // Devices that announce no mesh match any mesh.
    predicate MatchesMesh(deviceMeshId: Option<string>) {
      deviceMeshId.None? || deviceMeshId.value == meshId
    }
  }

  type TrackedPeers = map<NodeId, PeatPeer>

  datatype Manager = Manager(
    nodeId: NodeId,
    config: ManagerConfig,
    peers: TrackedPeers,
    identifiers: map<string, NodeId>,
    syncHistory: map<NodeId, u64>)
  {
    // A device is admitted by name when it belongs to our mesh, names a node, and is not ourselves.
    function Admitted(name: Option<string>, meshId: Option<string>): (r: Option<NodeId>) {
      if !config.MatchesMesh(meshId) then None
      else match ParseNodeIdFromName(name)
        case None => None
        case Some(id) => if id == nodeId then None else Some(id)
    }

    // An identifier that now names another node makes its former node untracked.
    function Displaced(identifier: string, id: NodeId): (r: TrackedPeers) {
      if identifier in identifiers && identifiers[identifier] != id then peers - {identifiers[identifier]} else peers
    }

    predicate Full(tracked: TrackedPeers, id: NodeId) {
      |tracked| >= config.maxPeers && id !in tracked
    }

    function OnDiscovered(identifier: string, name: Option<string>, rssi: i8, meshId: Option<string>, nowMs: u64)
      : (r: (Manager, Option<(NodeId, bool)>))
    {
      match Admitted(name, meshId)
      case None => (this, None)
      case Some(id) =>
        var tracked := Displaced(identifier, id);
        if Full(tracked, id) then (this.(peers := tracked), None)
        else
          var peer := if id in tracked then tracked[id] else NewPeer(id, identifier, meshId, name, rssi);
          (this.(peers := tracked[id := peer.(rssi := rssi, lastSeenMs := nowMs, name := name)],
                 identifiers := identifiers[identifier := id]),
           Some((id, id !in tracked)))
    }

    function OnConnected(identifier: string, nowMs: u64): (r: Manager) {
      if identifier in identifiers && identifiers[identifier] in peers then
        var id := identifiers[identifier];
        this.(peers := peers[id := peers[id].(isConnected := true, lastSeenMs := nowMs)])
      else this
    }

    function OnDisconnectedNode(id: NodeId): (r: Manager) {
      if id in peers then this.(peers := peers[id := peers[id].(isConnected := false)]) else this
    }

    function OnDisconnected(identifier: string): (r: Manager) {
      if identifier in identifiers then OnDisconnectedNode(identifiers[identifier]) else this
    }

    predicate AcceptsIncoming(id: NodeId) {
      id != nodeId && !Full(peers, id)
    }

    // The peer is connected under this identifier, and only the new identifier names it.
    function OnIncomingConnection(identifier: string, id: NodeId, nowMs: u64): (r: Manager) {
      if !AcceptsIncoming(id) then this
      else
        var peer := if id in peers then peers[id] else NewPeer(id, identifier, Some(config.meshId), None, -70);
        var known := if peer.identifier != identifier then identifiers - {peer.identifier} else identifiers;
        this.(peers := peers[id := peer.(isConnected := true, lastSeenMs := nowMs, identifier := identifier)],
              identifiers := known[identifier := id])
    }

    function RecordSync(id: NodeId, nowMs: u64): (r: Manager) {
      this.(syncHistory := syncHistory[id := nowMs])
    }

    function RegisterIdentifier(identifier: string, id: NodeId): (r: Manager) {
      this.(identifiers := identifiers[identifier := id])
    }

    function Stale(nowMs: u64): (r: set<NodeId>) {
      set id | id in peers && peers[id].IsStale(nowMs, config.peerTimeoutMs)
    }

    function IdentifiersOf(ids: set<NodeId>): (r: set<string>) {
      set id | id in ids && id in peers :: peers[id].identifier
    }

    function CleanupStale(nowMs: u64): (r: Manager) {
      this.(peers := peers - Stale(nowMs),
            identifiers := identifiers - IdentifiersOf(Stale(nowMs)),
            syncHistory := syncHistory - Stale(nowMs))
    }

    function ConnectedIds(): (r: set<NodeId>) {
      set id | id in peers && peers[id].isConnected
    }

    predicate NeedsSync(id: NodeId, nowMs: u64) {
      id !in syncHistory || SaturatingSub(nowMs, syncHistory[id]) >= config.syncCooldownMs
    }
  }

  function NewManager(nodeId: NodeId, config: ManagerConfig): (r: Manager) {
    Manager(nodeId, config, map[], map[], map[])
  }

  function Listed(peers: TrackedPeers, ids: seq<NodeId>): (list: seq<PeatPeer>)
    requires Elements(ids) <= peers.Keys
    ensures |list| == |ids| && forall i :: 0 <= i < |ids| ==> ids[i] in peers && list[i] == peers[ids[i]]
  {
    assert forall i :: 0 <= i < |ids| ==> ids[i] in Elements(ids);
    seq(|ids|, i requires 0 <= i < |ids| => peers[ids[i]])
  }

  // ---------- The manager object ----------

  class PeerManager {
    const nodeId: NodeId
    const config: ManagerConfig
    var peers: TrackedPeers
    var identifierMap: map<string, NodeId>
    var syncHistory: map<NodeId, u64>

    function State(): (r: Manager)
      reads this
    {
      Manager(nodeId, config, peers, identifierMap, syncHistory)
    }

    constructor (nodeId: NodeId, config: ManagerConfig)
      ensures State() == NewManager(nodeId, config)
    {
      this.nodeId := nodeId;
      this.config := config;
      peers := map[];
      identifierMap := map[];
      syncHistory := map[];
    }

    method OnDiscovered(identifier: string, name: Option<string>, rssi: i8, meshId: Option<string>, nowMs: u64)
      returns (found: Option<(NodeId, bool)>)
      modifies this
      ensures (State(), found) == old(State()).OnDiscovered(identifier, name, rssi, meshId, nowMs)
    {
      if !config.MatchesMesh(meshId) {
        return None;
      }
      var parsed := ParseNodeIdFromName(name);
      if parsed.None? || parsed.value == nodeId {
        return None;
      }
      var id := parsed.value;
      if identifier in identifierMap {
        if identifierMap[identifier] != id {
          peers := peers - {identifierMap[identifier]};
        }
      }
      if |peers| >= config.maxPeers && id !in peers {
        return None;
      }
      var isNew := id !in peers;
      var peer := if isNew then NewPeer(id, identifier, meshId, name, rssi) else peers[id];
      peer := peer.(rssi := rssi).Touch(nowMs);
      if name.Some? {
        peer := peer.(name := name);
      }
      peers := peers[id := peer];
      identifierMap := identifierMap[identifier := id];
      found := Some((id, isNew));
    }

    method OnConnected(identifier: string, nowMs: u64) returns (found: Option<NodeId>)
      modifies this
      ensures State() == old(State()).OnConnected(identifier, nowMs)
      ensures found == if identifier in identifierMap then Some(identifierMap[identifier]) else None
    {
      if identifier !in identifierMap {
        return None;
      }
      var id := identifierMap[identifier];
      if id in peers {
        peers := peers[id := peers[id].(isConnected := true).Touch(nowMs)];
      }
      found := Some(id);
    }

    method OnDisconnected(identifier: string) returns (found: Option<NodeId>)
      modifies this
      ensures State() == old(State()).OnDisconnected(identifier)
      ensures found == if identifier in identifierMap then Some(identifierMap[identifier]) else None
    {
      if identifier !in identifierMap {
        return None;
      }
      var id := identifierMap[identifier];
      if id in peers {
        peers := peers[id := peers[id].(isConnected := false)];
      }
      found := Some(id);
    }

    method OnDisconnectedByNodeId(id: NodeId) returns (found: bool)
      modifies this
      ensures State() == old(State()).OnDisconnectedNode(id)
      ensures found == (id in old(peers))
    {
      found := id in peers;
      if found {
        peers := peers[id := peers[id].(isConnected := false)];
      }
    }

    method OnIncomingConnection(identifier: string, id: NodeId, nowMs: u64) returns (isNew: bool)
      modifies this
      ensures State() == old(State()).OnIncomingConnection(identifier, id, nowMs)
      ensures isNew == (old(State()).AcceptsIncoming(id) && id !in old(peers))
    {
      if id == nodeId {
        return false;
      }
      if |peers| >= config.maxPeers && id !in peers {
        return false;
      }
      isNew := id !in peers;
      var peer := if isNew then NewPeer(id, identifier, Some(config.meshId), None, -70) else peers[id];
      peer := peer.(isConnected := true).Touch(nowMs);
      if peer.identifier != identifier {
        identifierMap := identifierMap - {peer.identifier};
        peer := peer.(identifier := identifier);
      }
      peers := peers[id := peer];
      identifierMap := identifierMap[identifier := id];
    }

    method RecordSync(id: NodeId, nowMs: u64)
      modifies this
      ensures State() == old(State()).RecordSync(id, nowMs)
    {
      syncHistory := syncHistory[id := nowMs];
    }

    method RegisterIdentifier(identifier: string, id: NodeId)
      modifies this
      ensures State() == old(State()).RegisterIdentifier(identifier, id)
    {
      identifierMap := identifierMap[identifier := id];
    }

    method CleanupStale(nowMs: u64) returns (removed: seq<NodeId>)
      modifies this
      ensures State() == old(State()).CleanupStale(nowMs)
      ensures removed == Ascending(old(State()).Stale(nowMs))
    {
      ghost var before := State();
      ghost var stale := before.Stale(nowMs);
      removed := [];
      var left := set id | id in peers && peers[id].IsStale(nowMs, config.peerTimeoutMs);
      assert stale * left == stale;
      while left != {}
        invariant left <= stale
        invariant peers == before.peers - (stale - left)
        invariant identifierMap == before.identifiers - before.IdentifiersOf(stale - left)
        invariant syncHistory == before.syncHistory - (stale - left)
        invariant removed + Ascending(stale * left) == Ascending(stale)
        decreases left
      {
        var id := Least(left);
        CollectNext(removed, stale, left);
        StaleNext(before, stale, left, id);
        SubtractTwice(before.peers, stale - left, {id});
        SubtractTwice(before.syncHistory, stale - left, {id});
        SubtractTwice(before.identifiers, before.IdentifiersOf(stale - left), {peers[id].identifier});
        identifierMap := identifierMap - {peers[id].identifier};
        peers := peers - {id};
        syncHistory := syncHistory - {id};
        removed := removed + [id];
        left := left - {id};
      }
      assert stale - left == stale && stale * left == {};
    }

    method GetConnectedPeers() returns (connected: seq<PeatPeer>)
      ensures Elements(Ascending(State().ConnectedIds())) <= State().peers.Keys
      ensures connected == Listed(State().peers, Ascending(State().ConnectedIds()))
    {
      AscendingListing(State().ConnectedIds());
      connected := Listed(peers, Ascending(set id | id in peers && peers[id].isConnected));
    }

    method ShouldSyncWith(id: NodeId, nowMs: u64) returns (due: bool)
      ensures due <==>
        id in State().syncHistory && config.syncCooldownMs > 0 ==> nowMs >= State().syncHistory[id] + config.syncCooldownMs
      ensures due <==> State().NeedsSync(id, nowMs)
    {
      if id in syncHistory {
        due := SaturatingSub(nowMs, syncHistory[id]) >= config.syncCooldownMs;
      } else {
        due := true;
      }
    }
  }

  lemma StaleNext(m: Manager, stale: set<NodeId>, left: set<NodeId>, id: NodeId)
    requires id in left && left <= stale && id in m.peers
    ensures stale - (left - {id}) == (stale - left) + {id}
    ensures m.IdentifiersOf(stale - (left - {id})) == m.IdentifiersOf(stale - left) + {m.peers[id].identifier}
  {
    assert stale - (left - {id}) == (stale - left) + {id};
    IdentifiersOfInsert(m, stale - left, id);
  }

  lemma IdentifiersOfInsert(m: Manager, ids: set<NodeId>, id: NodeId)
    requires id in m.peers
    ensures m.IdentifiersOf(ids + {id}) == m.IdentifiersOf(ids) + {m.peers[id].identifier}
  {
    assert m.peers[id].identifier in m.IdentifiersOf(ids + {id});
  }

  // ---------- When a sync is due ----------
  // After a sync a node is due again once the cooldown has passed since, at once if there is none;
  // no other node is affected.
  lemma SyncCooldown(m: Manager, id: NodeId, syncedMs: u64, other: NodeId, nowMs: u64)
    ensures m.RecordSync(id, syncedMs).NeedsSync(id, nowMs)
       <==> nowMs >= syncedMs + m.config.syncCooldownMs || m.config.syncCooldownMs == 0
    ensures other != id ==> (m.RecordSync(id, syncedMs).NeedsSync(other, nowMs) <==> m.NeedsSync(other, nowMs))
  {
  }

  // Nothing else but being dropped as stale changes who is due: that makes a node due at once.
  lemma SyncForgotten(m: Manager, cleanedMs: u64, id: NodeId, nowMs: u64)
    ensures m.CleanupStale(cleanedMs).NeedsSync(id, nowMs) <==> id in m.Stale(cleanedMs) || m.NeedsSync(id, nowMs)
  {
  }

  // The sync history over any run of manager calls.
  datatype ManagerCall =
    | Discovery(identifier: string, name: Option<string>, rssi: i8, meshId: Option<string>)
    | Connection(identifier: string)
    | Disconnection(identifier: string)
    | NodeDisconnection(id: NodeId)
    | Incoming(identifier: string, id: NodeId)
    | Sync(id: NodeId)
    | Register(identifier: string, id: NodeId)
    | Cleanup

  function Called(m: Manager, call: ManagerCall, nowMs: u64): (r: Manager) {
    match call
    case Discovery(identifier, name, rssi, meshId) => m.OnDiscovered(identifier, name, rssi, meshId, nowMs).0
    case Connection(identifier) => m.OnConnected(identifier, nowMs)
    case Disconnection(identifier) => m.OnDisconnected(identifier)
    case NodeDisconnection(id) => m.OnDisconnectedNode(id)
    case Incoming(identifier, id) => m.OnIncomingConnection(identifier, id, nowMs)
    case Sync(id) => m.RecordSync(id, nowMs)
    case Register(identifier, id) => m.RegisterIdentifier(identifier, id)
    case Cleanup => m.CleanupStale(nowMs)
  }

  function CalledAll(m: Manager, calls: seq<(ManagerCall, u64)>): (r: Manager) {
    if calls == [] then m
    else Called(CalledAll(m, calls[..|calls| - 1]), calls[|calls| - 1].0, calls[|calls| - 1].1)
  }

  // The time of the last sync with the node that no cleanup has dropped since.
  function LastSync(m: Manager, calls: seq<(ManagerCall, u64)>, id: NodeId): (r: Option<u64>) {
    if calls == [] then None
    else
      var before, (call, now) := calls[..|calls| - 1], calls[|calls| - 1];
      if call == Sync(id) then Some(now)
      else if call.Cleanup? && id in CalledAll(m, before).Stale(now) then None
      else LastSync(m, before, id)
  }

  // What one call does to the sync history.
  lemma CallHistory(m: Manager, call: ManagerCall, nowMs: u64)
    ensures Called(m, call, nowMs).config == m.config
    ensures Called(m, call, nowMs).syncHistory
         == match call
            case Sync(id) => m.syncHistory[id := nowMs]
            case Cleanup => m.syncHistory - m.Stale(nowMs)
            case _ => m.syncHistory
  {
    match call
    case Discovery(identifier, name, rssi, meshId) => DiscoveryHistory(m, identifier, name, rssi, meshId, nowMs);
    case Incoming(identifier, id) => IncomingHistory(m, identifier, id, nowMs);
    case _ =>
  }

  lemma DiscoveryHistory(m: Manager, identifier: string, name: Option<string>, rssi: i8, meshId: Option<string>, nowMs: u64)
    ensures m.OnDiscovered(identifier, name, rssi, meshId, nowMs).0.syncHistory == m.syncHistory
    ensures m.OnDiscovered(identifier, name, rssi, meshId, nowMs).0.config == m.config
  {
  }

  lemma IncomingHistory(m: Manager, identifier: string, id: NodeId, nowMs: u64)
    ensures m.OnIncomingConnection(identifier, id, nowMs).syncHistory == m.syncHistory
    ensures m.OnIncomingConnection(identifier, id, nowMs).config == m.config
  {
  }

  // Whatever is called, a node is due exactly when it was never synced, or was dropped as stale
  // since, or the cooldown has passed since its last sync.
  lemma DueExactly(nodeId: NodeId, config: ManagerConfig, calls: seq<(ManagerCall, u64)>, id: NodeId, nowMs: u64)
    ensures var m := NewManager(nodeId, config);
      CalledAll(m, calls).NeedsSync(id, nowMs)
      <==> match LastSync(m, calls, id)
           case None => true
           case Some(synced) => nowMs >= synced + config.syncCooldownMs || config.syncCooldownMs == 0
  {
    HistoryFollows(nodeId, config, calls, id);
  }

  lemma {:induction false} HistoryFollows(nodeId: NodeId, config: ManagerConfig, calls: seq<(ManagerCall, u64)>, id: NodeId)
    ensures var m := NewManager(nodeId, config);
      && CalledAll(m, calls).config == config
      && match LastSync(m, calls, id)
         case None => id !in CalledAll(m, calls).syncHistory
         case Some(synced) => id in CalledAll(m, calls).syncHistory && CalledAll(m, calls).syncHistory[id] == synced
  {
    if calls != [] {
      var before := calls[..|calls| - 1];
      var (call, now) := calls[|calls| - 1];
      HistoryFollows(nodeId, config, before, id);
      CallHistory(CalledAll(NewManager(nodeId, config), before), call, now);
    }
  }

  // ---------- Who is admitted ----------

  // The node this identifier has named so far, if a sighting of another node under it drops that node.
  function Displaces(m: Manager, identifier: string, id: NodeId): (gone: Option<NodeId>) {
    if identifier in m.identifiers && m.identifiers[identifier] != id && m.identifiers[identifier] in m.peers
    then Some(m.identifiers[identifier]) else None
  }

  // Is there room for the node once the displaced one has gone?
  predicate HasRoom(m: Manager, identifier: string, id: NodeId) {
    id in m.peers || |m.peers| < m.config.maxPeers + if Displaces(m, identifier, id).Some? then 1 else 0
  }

  lemma RoomAfter(m: Manager, identifier: string, id: NodeId)
    ensures !m.Full(m.Displaced(identifier, id), id) <==> HasRoom(m, identifier, id)
  {
    match Displaces(m, identifier, id)
    case None => assert m.Displaced(identifier, id) == m.peers;
    case Some(gone) =>
      var left := m.peers - {gone};
      assert left.Keys == m.peers.Keys - {gone};
      assert |left| == |left.Keys| && |m.peers| == |m.peers.Keys|;
  }

  // A device is admitted exactly when it announces our mesh or none, is named after a node other than
  // us, and there is room; the answer says which node and whether it is a new one.
  lemma AdmittedExactly(m: Manager, identifier: string, name: Option<string>, rssi: i8, meshId: Option<string>,
                        nowMs: u64)
    ensures var found, named := m.OnDiscovered(identifier, name, rssi, meshId, nowMs).1, ParseNodeIdFromName(name);
      && (found.Some? <==>
            && (meshId == None || meshId == Some(m.config.meshId))
            && named.Some? && named.value != m.nodeId
            && HasRoom(m, identifier, named.value))
      && (found.Some? ==> found.value == (named.value, named.value !in m.peers))
  {
    match m.Admitted(name, meshId)
    case None =>
    case Some(id) => RoomAfter(m, identifier, id);
  }

  // Does the call drop the node?
  predicate Drops(m: Manager, call: ManagerCall, nowMs: u64, id: NodeId) {
    match call
    case Discovery(identifier, name, _, meshId) =>
      && (meshId == None || meshId == Some(m.config.meshId))
      && var named := ParseNodeIdFromName(name);
         named.Some? && named.value != m.nodeId && Displaces(m, identifier, named.value) == Some(id)
    case Cleanup => id in m.peers && 0 < m.peers[id].lastSeenMs < nowMs - m.config.peerTimeoutMs
    case _ => false
  }

  // The node the call has seen and will track.
  function Sighted(m: Manager, call: ManagerCall, nowMs: u64): (id: Option<NodeId>) {
    match call
    case Discovery(identifier, name, rssi, meshId) =>
      var found := m.OnDiscovered(identifier, name, rssi, meshId, nowMs).1;
      if found.Some? then Some(found.value.0) else None
    case Connection(identifier) =>
      if identifier in m.identifiers && m.identifiers[identifier] in m.peers then Some(m.identifiers[identifier]) else None
    case Incoming(identifier, id) =>
      if id != m.nodeId && (id in m.peers || |m.peers| < m.config.maxPeers) then Some(id) else None
    case _ => None
  }

  // The node the call disconnects.
  function Unlinked(m: Manager, call: ManagerCall): (id: Option<NodeId>) {
    match call
    case Disconnection(identifier) => if identifier in m.identifiers then Some(m.identifiers[identifier]) else None
    case NodeDisconnection(id) => Some(id)
    case _ => None
  }

  // Exactly those nodes are tracked afterwards that were and were not dropped, and the one seen. That
  // one was last seen now, and is connected exactly if it was already or the call connects it; every
  // other one is as it was, but for being disconnected.
  predicate Told(m: Manager, call: ManagerCall, nowMs: u64, after: TrackedPeers, id: NodeId) {
    && (id in after <==> Sighted(m, call, nowMs) == Some(id) || (id in m.peers && !Drops(m, call, nowMs, id)))
    && (id in after ==>
          && (after[id].isConnected <==>
                || (Sighted(m, call, nowMs) == Some(id) && !call.Discovery?)
                || (id in m.peers && m.peers[id].isConnected && Unlinked(m, call) != Some(id)))
          && (Sighted(m, call, nowMs) == Some(id) ==> after[id].lastSeenMs == nowMs)
          && (Sighted(m, call, nowMs) != Some(id) ==> after[id] == m.peers[id].(isConnected := after[id].isConnected)))
  }

  lemma DiscoveryTells(m: Manager, identifier: string, name: Option<string>, rssi: i8, meshId: Option<string>,
                       nowMs: u64, id: NodeId)
    ensures var call := Discovery(identifier, name, rssi, meshId);
      Told(m, call, nowMs, m.OnDiscovered(identifier, name, rssi, meshId, nowMs).0.peers, id)
  {
    AdmittedExactly(m, identifier, name, rssi, meshId, nowMs);
  }

  lemma IncomingTells(m: Manager, identifier: string, from: NodeId, nowMs: u64, id: NodeId)
    ensures Told(m, Incoming(identifier, from), nowMs, m.OnIncomingConnection(identifier, from, nowMs).peers, id)
  {
  }

  lemma CleanupTells(m: Manager, nowMs: u64, id: NodeId)
    ensures Told(m, Cleanup, nowMs, m.CleanupStale(nowMs).peers, id)
  {
  }

  // So it is after any call.
  lemma CallTells(m: Manager, call: ManagerCall, nowMs: u64, id: NodeId)
    ensures Told(m, call, nowMs, Called(m, call, nowMs).peers, id)
  {
    match call
    case Discovery(identifier, name, rssi, meshId) => DiscoveryTells(m, identifier, name, rssi, meshId, nowMs, id);
    case Incoming(identifier, from) => IncomingTells(m, identifier, from, nowMs, id);
    case Cleanup => CleanupTells(m, nowMs, id);
    case _ =>
  }

  // What is recorded of a node seen: signal and name of a discovery, the identifier of an incoming
  // connection; of a new node also its mesh, and what an incoming connection assumes of the rest.
  lemma SightingRecorded(m: Manager, call: ManagerCall, nowMs: u64)
    requires ManagerKept(m) && Sighted(m, call, nowMs).Some?
    ensures var id, after := Sighted(m, call, nowMs).value, Called(m, call, nowMs).peers;
      && id in after && after[id].nodeId == id
      && match call
         case Discovery(identifier, name, rssi, meshId) =>
           && after[id].rssi == rssi && after[id].name == name
           && (id in m.peers ==> after[id].identifier == m.peers[id].identifier && after[id].meshId == m.peers[id].meshId)
           && (id !in m.peers ==> after[id].identifier == identifier && after[id].meshId == meshId)
         case Incoming(identifier, _) =>
           && after[id].identifier == identifier
           && (id in m.peers ==>
                 && after[id].rssi == m.peers[id].rssi && after[id].name == m.peers[id].name
                 && after[id].meshId == m.peers[id].meshId)
           && (id !in m.peers ==>
                 after[id].rssi == -70 && after[id].name == None && after[id].meshId == Some(m.config.meshId))
         case Connection(_) => after[id] == m.peers[id].(isConnected := true, lastSeenMs := nowMs)
         case _ => true
  {
    if call.Discovery? {
      AdmittedExactly(m, call.identifier, call.name, call.rssi, call.meshId, nowMs);
    }
  }

  predicate SameName(before: map<string, NodeId>, after: map<string, NodeId>, identifier: string) {
    (identifier in after <==> identifier in before)
    && (identifier in before ==> after[identifier] == before[identifier])
  }

  // Which node the call makes the identifier name, if any; and whether it makes it name none.
  function Named(m: Manager, call: ManagerCall, nowMs: u64, identifier: string): (id: Option<NodeId>) {
    match call
    case Discovery(seen, _, _, _) => if seen == identifier then Sighted(m, call, nowMs) else None
    case Incoming(seen, _) => if seen == identifier then Sighted(m, call, nowMs) else None
    case Register(seen, id) => if seen == identifier then Some(id) else None
    case _ => None
  }

  ghost predicate Unnamed(m: Manager, call: ManagerCall, nowMs: u64, identifier: string) {
    exists id :: id in m.peers && m.peers[id].identifier == identifier
      && ((call.Cleanup? && Drops(m, call, nowMs, id)) || (call.Incoming? && Sighted(m, call, nowMs) == Some(id)))
  }

  ghost predicate NamesTold(m: Manager, call: ManagerCall, nowMs: u64, after: map<string, NodeId>, identifier: string) {
    if Named(m, call, nowMs, identifier).Some?
    then identifier in after && after[identifier] == Named(m, call, nowMs, identifier).value
    else if Unnamed(m, call, nowMs, identifier) then identifier !in after
    else SameName(m.identifiers, after, identifier)
  }

  lemma DiscoveryNames(m: Manager, identifier: string, name: Option<string>, rssi: i8, meshId: Option<string>,
                       nowMs: u64, seen: string)
    ensures var call := Discovery(identifier, name, rssi, meshId);
      NamesTold(m, call, nowMs, m.OnDiscovered(identifier, name, rssi, meshId, nowMs).0.identifiers, seen)
  {
  }

  lemma IncomingNames(m: Manager, identifier: string, from: NodeId, nowMs: u64, seen: string)
    ensures NamesTold(m, Incoming(identifier, from), nowMs,
                      m.OnIncomingConnection(identifier, from, nowMs).identifiers, seen)
  {
  }

  lemma CleanupNames(m: Manager, nowMs: u64, seen: string)
    ensures NamesTold(m, Cleanup, nowMs, m.CleanupStale(nowMs).identifiers, seen)
  {
    assert forall id :: id in m.Stale(nowMs) <==> Drops(m, Cleanup, nowMs, id);
    assert seen in m.IdentifiersOf(m.Stale(nowMs)) <==> Unnamed(m, Cleanup, nowMs, seen);
  }

  // After any call each identifier names the node the call gave it, or none if the call unmapped it, or
  // what it did before.
  lemma NamesTell(m: Manager, call: ManagerCall, nowMs: u64, identifier: string)
    ensures NamesTold(m, call, nowMs, Called(m, call, nowMs).identifiers, identifier)
  {
    match call
    case Discovery(seen, name, rssi, meshId) => DiscoveryNames(m, seen, name, rssi, meshId, nowMs, identifier);
    case Incoming(seen, from) => IncomingNames(m, seen, from, nowMs, identifier);
    case Cleanup => CleanupNames(m, nowMs, identifier);
    case _ =>
  }

  // ---------- What the manager keeps ----------

  predicate ManagerKept(m: Manager) {
    && m.nodeId !in m.peers
    && |m.peers| <= m.config.maxPeers
    && forall id :: id in m.peers ==> m.peers[id].nodeId == id
  }

  lemma SubtractShrinks(peers: TrackedPeers, gone: set<NodeId>)
    ensures |peers - gone| <= |peers|
  {
    assert (peers - gone).Keys <= peers.Keys;
    SubsetSize((peers - gone).Keys, peers.Keys);
  }

  lemma {:induction false} SubsetSize(a: set<NodeId>, b: set<NodeId>)
    requires a <= b
    ensures |a| <= |b|
  {
    assert |b - a| == |b| - |a|;
  }

  lemma InsertGrows(peers: TrackedPeers, id: NodeId, peer: PeatPeer)
    ensures |peers[id := peer]| == if id in peers then |peers| else |peers| + 1
  {
    var after := peers[id := peer];
    assert after.Keys == peers.Keys + {id};
    assert |after| == |after.Keys| && |peers| == |peers.Keys|;
  }

  lemma DiscoveryKeeps(m: Manager, identifier: string, name: Option<string>, rssi: i8, meshId: Option<string>,
                       nowMs: u64)
    requires ManagerKept(m)
    ensures ManagerKept(m.OnDiscovered(identifier, name, rssi, meshId, nowMs).0)
  {
    match m.Admitted(name, meshId)
    case None =>
    case Some(id) =>
      var tracked := m.Displaced(identifier, id);
      if identifier in m.identifiers {
        SubtractShrinks(m.peers, {m.identifiers[identifier]});
      }
      if !m.Full(tracked, id) {
        InsertGrows(tracked, id, m.OnDiscovered(identifier, name, rssi, meshId, nowMs).0.peers[id]);
      }
  }

  lemma IncomingKeeps(m: Manager, identifier: string, id: NodeId, nowMs: u64)
    requires ManagerKept(m)
    ensures ManagerKept(m.OnIncomingConnection(identifier, id, nowMs))
  {
    if m.AcceptsIncoming(id) {
      InsertGrows(m.peers, id, m.OnIncomingConnection(identifier, id, nowMs).peers[id]);
    }
  }

  lemma CleanupKeeps(m: Manager, nowMs: u64)
    requires ManagerKept(m)
    ensures ManagerKept(m.CleanupStale(nowMs))
  {
    SubtractShrinks(m.peers, m.Stale(nowMs));
  }

  lemma ConnectionKeeps(m: Manager, identifier: string, id: NodeId, nowMs: u64)
    requires ManagerKept(m)
    ensures ManagerKept(m.OnConnected(identifier, nowMs))
    ensures ManagerKept(m.OnDisconnectedNode(id))
  {
    if identifier in m.identifiers && m.identifiers[identifier] in m.peers {
      var k := m.identifiers[identifier];
      InsertGrows(m.peers, k, m.peers[k].(isConnected := true, lastSeenMs := nowMs));
    }
    if id in m.peers {
      InsertGrows(m.peers, id, m.peers[id].(isConnected := false));
    }
  }
}
