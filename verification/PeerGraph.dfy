/** The connection state graph (src/peer.rs): the seven-state life of each direct peer, and the
    indirect peers learned from relayed messages. Functions on Graph values say what each call
    does; the class performs the calls in place; the lemmas speak about every run of calls. */
module PeerGraph {
  import opened Common
  import opened Peers

  const MAX_TRACKED_DEGREE: u8 := 3

  datatype ConnectionState =
    Discovered | Connecting | Connected | Degraded | Disconnecting | Disconnected | Lost
  {
    predicate IsConnected() {
      this == Connected || this == Degraded
    }
  }

  datatype DisconnectReason =
    LocalRequest | RemoteRequest | Timeout | LinkLoss | ConnectionFailed | Unknown

  datatype PeerConnectionState = PeerConnectionState(
    nodeId: NodeId,
    identifier: string,
    state: ConnectionState,
    discoveredAt: u64,
    connectedAt: Option<u64>,
    disconnectedAt: Option<u64>,
    disconnectReason: Option<DisconnectReason>,
    lastRssi: Option<i8>,
    connectionCount: nat,
    lastSeenMs: u64,
    name: Option<string>,
    meshId: Option<string>)
  {
    static function NewDiscovered(nodeId: NodeId, identifier: string, nowMs: u64): (r: PeerConnectionState) {
      PeerConnectionState(nodeId, identifier, Discovered, nowMs, None, None, None, None, 0, nowMs, None, None)
    }

    static function FromPeer(peer: PeatPeer, nowMs: u64): (r: PeerConnectionState) {
      PeerConnectionState(
        peer.nodeId, peer.identifier,
        if peer.isConnected then Connected else Discovered,
        nowMs,
        if peer.isConnected then Some(nowMs) else None,
        None, None,
        Some(peer.rssi),
        if peer.isConnected then 1 else 0,
        peer.lastSeenMs, peer.name, peer.meshId)
    }

    function SetConnecting(nowMs: u64): (r: PeerConnectionState) {
      this.(state := Connecting, lastSeenMs := nowMs)
    }

    function SetConnected(nowMs: u64): (r: PeerConnectionState) {
      this.(state := Connected, connectedAt := Some(nowMs), connectionCount := connectionCount + 1,
            lastSeenMs := nowMs, disconnectReason := None)
    }

    function SetDisconnected(nowMs: u64, reason: DisconnectReason): (r: PeerConnectionState) {
      this.(state := Disconnected, disconnectedAt := Some(nowMs), disconnectReason := Some(reason),
            lastSeenMs := nowMs)
    }

    function SetLost(nowMs: u64): (r: PeerConnectionState) {
      if state == Disconnected then this.(state := Lost, lastSeenMs := nowMs) else this
    }

    // A connected peer degrades below the threshold and recovers at or above it.
    function UpdateRssi(rssi: i8, nowMs: u64, threshold: i8): (r: PeerConnectionState) {
      this.(lastRssi := Some(rssi), lastSeenMs := nowMs,
            state := if state == Connected && rssi < threshold then Degraded
                     else if state == Degraded && rssi >= threshold then Connected
                     else state)
    }

    // Seen in an advertisement again: fresh metadata, and a lost peer is merely disconnected.
    function Rediscovered(name': Option<string>, meshId': Option<string>, rssi: i8, nowMs: u64): (r: PeerConnectionState) {
      this.(lastRssi := Some(rssi), lastSeenMs := nowMs,
            name := if name'.Some? then name' else name,
            meshId := if meshId'.Some? then meshId' else meshId,
            state := if state == Lost then Disconnected else state)
    }

    predicate Overdue(nowMs: u64, lostTimeoutMs: u64) {
      state == Disconnected && disconnectedAt.Some? && SaturatingSub(nowMs, disconnectedAt.value) > lostTimeoutMs
    }

    predicate LongLost(olderThanMs: u64, nowMs: u64) {
      state == Lost && SaturatingSub(nowMs, lastSeenMs) > olderThanMs
    }
  }

  // The least hop count among a non-empty set of routes.
  function LeastHop(via: map<NodeId, u8>): (m: u8)
    requires via != map[]
    ensures IsLeastHop(via, m)
  {
    assert forall v :: v in via ==> via[v] in via.Values;
    HasRoute(via);
    Least(via.Values)
  }

  lemma HasRoute(via: map<NodeId, u8>)
    requires via != map[]
    ensures via.Values != {}
  {
    assert via.Keys != {};
    var k :| k in via;
    assert via[k] in via.Values;
  }

  ghost predicate IsLeastHop(via: map<NodeId, u8>, m: int) {
    (exists v :: v in via && via[v] == m) && forall v :: v in via ==> m <= via[v]
  }

  datatype IndirectPeer = IndirectPeer(
    nodeId: NodeId,
    minHops: u8,
    viaPeers: map<NodeId, u8>,
    discoveredAt: u64,
    lastSeenMs: u64,
    messagesReceived: u32)
  {
    static function New(nodeId: NodeId, viaPeer: NodeId, hopCount: u8, nowMs: u64): (r: IndirectPeer) {
      IndirectPeer(nodeId, hopCount, map[viaPeer := hopCount], nowMs, nowMs, 1)
    }

    // Is this hop count shorter than any route so far? An update answers this.
    predicate IsBetter(hopCount: u8) {
      hopCount < minHops
    }

    // A shorter route sets the minimum directly; any other route recomputes it.
    function UpdatePath(viaPeer: NodeId, hopCount: u8, nowMs: u64): (r: IndirectPeer) {
      var routes := viaPeers[viaPeer := hopCount];
      assert viaPeer in routes;
      this.(lastSeenMs := nowMs, messagesReceived := WrappingInc32(messagesReceived), viaPeers := routes,
            minHops := if IsBetter(hopCount) then hopCount else LeastHop(routes))
    }

    function WithoutVia(viaPeer: NodeId): (r: IndirectPeer) {
      var routes := viaPeers - {viaPeer};
      this.(viaPeers := routes, minHops := if routes == map[] then minHops else LeastHop(routes))
    }

    predicate IsStale(nowMs: u64, timeoutMs: u64) {
      SaturatingSub(nowMs, lastSeenMs) > timeoutMs
    }
  }

  type PeerStates = map<NodeId, PeerConnectionState>
  type IndirectPeers = map<NodeId, IndirectPeer>

  function OverdueAmong(peers: PeerStates, lostTimeoutMs: u64, nowMs: u64): (r: set<NodeId>) {
    set id | id in peers && peers[id].Overdue(nowMs, lostTimeoutMs)
  }

  function TickedPeers(peers: PeerStates, lost: set<NodeId>, nowMs: u64): (r: PeerStates) {
    map id | id in peers :: if id in lost then peers[id].SetLost(nowMs) else peers[id]
  }

  function OnlyVia(indirect: IndirectPeers, via: NodeId): (r: set<NodeId>) {
    set id | id in indirect && indirect[id].viaPeers.Keys - {via} == {}
  }

  function WithoutRoutes(indirect: IndirectPeers, via: NodeId): (r: IndirectPeers) {
    map id | id in indirect && id !in OnlyVia(indirect, via) :: indirect[id].WithoutVia(via)
  }

  function AmongAtHops(indirect: IndirectPeers, h: int): (r: set<NodeId>) {
    set id | id in indirect && indirect[id].minHops == h
  }

  function KeysInState(peers: PeerStates, keys: set<NodeId>, s: ConnectionState): (r: set<NodeId>) {
    set id | id in keys && id in peers && peers[id].state == s
  }

  // The peers of each state among the given keys.
  function CountStates(peers: PeerStates, keys: set<NodeId>): (r: StateCountSummary)
    requires keys <= peers.Keys
  {
    if keys == {} then StateCountSummary(0, 0, 0, 0, 0, 0, 0)
    else CountStates(peers, keys - {Least(keys)}).Counting(peers[Least(keys)].state)
  }

  // ---------- What each call does to the graph ----------

  datatype Graph = Graph(
    peers: PeerStates,
    indirect: IndirectPeers,
    rssiDegradedThreshold: i8,
    lostTimeoutMs: u64,
    indirectTimeoutMs: u64)
  {
    function OnDiscovered(nodeId: NodeId, identifier: string, name: Option<string>, meshId: Option<string>,
                          rssi: i8, nowMs: u64): (r: Graph)
    {
      var entry := if nodeId in peers then peers[nodeId]
                   else PeerConnectionState.NewDiscovered(nodeId, identifier, nowMs);
      this.(peers := peers[nodeId := entry.Rediscovered(name, meshId, rssi, nowMs)])
    }

    function OnConnecting(nodeId: NodeId, nowMs: u64): (r: Graph) {
      if nodeId in peers then this.(peers := peers[nodeId := peers[nodeId].SetConnecting(nowMs)]) else this
    }

    function OnConnected(nodeId: NodeId, nowMs: u64): (r: Graph) {
      if nodeId in peers then this.(peers := peers[nodeId := peers[nodeId].SetConnected(nowMs)]) else this
    }

    function OnDisconnected(nodeId: NodeId, reason: DisconnectReason, nowMs: u64): (r: Graph) {
      if nodeId in peers then this.(peers := peers[nodeId := peers[nodeId].SetDisconnected(nowMs, reason)]) else this
    }

    function UpdateRssi(nodeId: NodeId, rssi: i8, nowMs: u64): (r: Graph) {
      if nodeId in peers
      then this.(peers := peers[nodeId := peers[nodeId].UpdateRssi(rssi, nowMs, rssiDegradedThreshold)])
      else this
    }

    // The peers a tick at nowMs declares lost.
    function NewlyLost(nowMs: u64): (r: set<NodeId>) {
      OverdueAmong(peers, lostTimeoutMs, nowMs)
    }

    function Tick(nowMs: u64): (r: Graph) {
      this.(peers := TickedPeers(peers, NewlyLost(nowMs), nowMs))
    }

    function LongLost(olderThanMs: u64, nowMs: u64): (r: set<NodeId>) {
      set id | id in peers && peers[id].LongLost(olderThanMs, nowMs)
    }

    function CleanupLost(olderThanMs: u64, nowMs: u64): (r: Graph) {
      this.(peers := peers - LongLost(olderThanMs, nowMs))
    }

    function ImportPeer(peer: PeatPeer, nowMs: u64): (r: Graph) {
      this.(peers := peers[peer.nodeId := PeerConnectionState.FromPeer(peer, nowMs)])
    }

    predicate TracksRelay(origin: NodeId, hopCount: u8) {
      hopCount <= MAX_TRACKED_DEGREE && origin !in peers
    }

    function OnRelayReceived(source: NodeId, origin: NodeId, hopCount: u8, nowMs: u64): (r: Graph) {
      if !TracksRelay(origin, hopCount) then this
      else
        this.(indirect := indirect[origin :=
          if origin in indirect then indirect[origin].UpdatePath(source, hopCount, nowMs)
          else IndirectPeer.New(origin, source, hopCount, nowMs)])
    }

    function StaleIndirect(nowMs: u64): (r: set<NodeId>) {
      set id | id in indirect && indirect[id].IsStale(nowMs, indirectTimeoutMs)
    }

    function CleanupIndirect(nowMs: u64): (r: Graph) {
      this.(indirect := indirect - StaleIndirect(nowMs))
    }

    // Indirect peers with another route lose this one; the others disappear.
    function RemoveViaPeer(via: NodeId): (r: Graph) {
      this.(indirect := WithoutRoutes(indirect, via))
    }

    function AtHops(h: int): (r: set<NodeId>) {
      AmongAtHops(indirect, h)
    }
  }

  function NewGraph(rssiDegradedThreshold: i8, lostTimeoutMs: u64): (r: Graph) {
    Graph(map[], map[], rssiDegradedThreshold, lostTimeoutMs, 120_000)
  }

  datatype StateCountSummary = StateCountSummary(
    discovered: nat, connecting: nat, connected: nat, degraded: nat,
    disconnecting: nat, disconnected: nat, lost: nat)
  {
    function Total(): (r: nat) {
      discovered + connecting + connected + degraded + disconnecting + disconnected + lost
    }

    function Counting(s: ConnectionState): (r: StateCountSummary) {
      match s
      case Discovered => this.(discovered := discovered + 1)
      case Connecting => this.(connecting := connecting + 1)
      case Connected => this.(connected := connected + 1)
      case Degraded => this.(degraded := degraded + 1)
      case Disconnecting => this.(disconnecting := disconnecting + 1)
      case Disconnected => this.(disconnected := disconnected + 1)
      case Lost => this.(lost := lost + 1)
    }

    function Plus(o: StateCountSummary): (r: StateCountSummary) {
      StateCountSummary(discovered + o.discovered, connecting + o.connecting, connected + o.connected,
                        degraded + o.degraded, disconnecting + o.disconnecting,
                        disconnected + o.disconnected, lost + o.lost)
    }

    function Of(s: ConnectionState): (r: nat) {
      match s
      case Discovered => discovered
      case Connecting => connecting
      case Connected => connected
      case Degraded => degraded
      case Disconnecting => disconnecting
      case Disconnected => disconnected
      case Lost => lost
    }
  }
}
