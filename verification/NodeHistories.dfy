/** What a node's records say of its whole run, exactly: each route, sync and direct connection it holds
    goes back to what happened, and whatever happened and was not undone since is held. */
module NodeHistories {
  import opened Common
  import opened Relay
  import opened Peers
  import opened PeerGraph
  import opened GraphRuns
  import opened PeerManagement
  import opened Mesh
  import opened MeshRuns

  const INDIRECT_TIMEOUT_MS: u64 := 120_000

  // ---------- Routes ----------

  // The route to the origin a moment teaches: by whom, and how many relays away. Envelopes that come in
  // by a mapped address alone teach nothing.
  function Teaches(m: MeshState, act: Act, origin: NodeId): (route: Option<(NodeId, u8)>) {
    match act
    case Local(_) => None
    case Envelope(entry, env, _, _, _) =>
      match SourceOf(m, entry)
      case None => None
      case Some(source) =>
        if && !entry.FromIdentifier?
           && env.originNode == origin && origin != source && origin != m.config.nodeId
           && env.hopCount <= 3 && origin !in m.graph.peers
        then Some((source, env.hopCount)) else None
  }

  // The neighbour a moment finds disconnected.
  function Severs(m: MeshState, act: Act): (via: Option<NodeId>) {
    match act
    case Local(BleDisconnected(identifier, _)) => NodeOf(m, identifier)
    case Local(PeerDisconnected(id, _)) => if id in m.manager.peers then Some(id) else None
    case _ => None
  }

  function NextHeard(m: MeshState, act: Act, nowMs: u64, origin: NodeId, heard: Option<u64>): (at: Option<u64>) {
    if Teaches(m, act, origin).Some? then Some(nowMs) else heard
  }

  // When the origin was last heard of.
  function HeardAt(config: MeshConfig, run: NodeRun, origin: NodeId): (at: Option<u64>) {
    match run
    case Started => None
    case Then(before, act, now, _) =>
      NextHeard(before.State(config), act, now, origin, HeardAt(config, before, origin))
  }

  function NextRoute(m: MeshState, act: Act, nowMs: u64, origin: NodeId, via: NodeId, heard: Option<u64>,
                     route: Option<u8>): (hops: Option<u8>)
  {
    var taught := Teaches(m, act, origin);
    if taught.Some? && taught.value.0 == via then Some(taught.value.1)
    else if Severs(m, act) == Some(via) then None
    else if act == Local(CleanupIndirectPeers) && heard.Some? && nowMs > heard.value + INDIRECT_TIMEOUT_MS then None
    else route
  }

  // The hops of the route last taught by this neighbour, unless since then the neighbour was found
  // disconnected, or a cleanup came too long after the origin was last heard of.
  function RouteTo(config: MeshConfig, run: NodeRun, origin: NodeId, via: NodeId): (hops: Option<u8>) {
    match run
    case Started => None
    case Then(before, act, now, _) =>
      NextRoute(before.State(config), act, now, origin, via, HeardAt(config, before, origin),
                RouteTo(config, before, origin, via))
  }

  function NextKnown(m: MeshState, act: Act, nowMs: u64, origin: NodeId, known: Option<(u64, u32)>)
    : (r: Option<(u64, u32)>)
  {
    if Teaches(m, act, origin).None? then known
    else if known.Some? && origin in m.graph.indirect then Some((known.value.0, WrappingInc32(known.value.1)))
    else Some((nowMs, 1))
  }

  // Since when the origin has been listed, and how many envelopes have told of it since.
  function Known(config: MeshConfig, run: NodeRun, origin: NodeId): (known: Option<(u64, u32)>) {
    match run
    case Started => None
    case Then(before, act, now, _) =>
      NextKnown(before.State(config), act, now, origin, Known(config, before, origin))
  }

  // The listed route, if any.
  function Listing(indirect: IndirectPeers, origin: NodeId, via: NodeId): (hops: Option<u8>) {
    if origin in indirect && via in indirect[origin].viaPeers then Some(indirect[origin].viaPeers[via]) else None
  }

  predicate Records(g: Graph, origin: NodeId, via: NodeId, route: Option<u8>, heard: Option<u64>,
                    known: Option<(u64, u32)>)
  {
    && g.indirectTimeoutMs == INDIRECT_TIMEOUT_MS
    && Listing(g.indirect, origin, via) == route
    && (origin in g.indirect ==>
          && heard == Some(g.indirect[origin].lastSeenMs)
          && known == Some((g.indirect[origin].discoveredAt, g.indirect[origin].messagesReceived))
          && g.indirect[origin].nodeId == origin)
  }

  // A relayed envelope lists its route beside the others of its origin, and touches no other origin.
  lemma ReceivedLists(g: Graph, source: NodeId, from: NodeId, hops: u8, nowMs: u64, origin: NodeId, via: NodeId)
    requires hops <= 3 && from !in g.peers
    ensures var after := g.OnRelayReceived(source, from, hops, nowMs).indirect;
      && from in after && after[from].lastSeenMs == nowMs
      && Listing(after, origin, via)
         == if origin == from && via == source then Some(hops) else Listing(g.indirect, origin, via)
  {
  }

  lemma RemovedLists(g: Graph, gone: NodeId, origin: NodeId, via: NodeId)
    ensures Listing(g.RemoveViaPeer(gone).indirect, origin, via)
         == if via == gone then None else Listing(g.indirect, origin, via)
  {
    if origin in g.indirect && via != gone && via in g.indirect[origin].viaPeers {
      assert via in g.indirect[origin].viaPeers.Keys - {gone};
    }
  }

  lemma CleanedLists(g: Graph, nowMs: u64, origin: NodeId, via: NodeId)
    ensures Listing(g.CleanupIndirect(nowMs).indirect, origin, via)
         == if origin in g.indirect && nowMs > g.indirect[origin].lastSeenMs + g.indirectTimeoutMs then None
            else Listing(g.indirect, origin, via)
  {
  }

  // What a local call does to the graph's indirect peers.
  lemma CallListing(m: MeshState, call: LocalCall, nowMs: u64)
    ensures var g, after := m.graph, Perform(m, call, nowMs).graph;
      && after.indirectTimeoutMs == g.indirectTimeoutMs
      && after.indirect
         == if call.CleanupIndirectPeers? then g.CleanupIndirect(nowMs).indirect
            else if Severs(m, Local(call)).Some? then g.RemoveViaPeer(Severs(m, Local(call)).value).indirect
            else g.indirect
  {
    match call
    case BleDisconnected(identifier, reason) =>
    case PeerDisconnected(id, reason) =>
    case _ =>
  }

  lemma EnvelopeLists(m: MeshState, entry: Entry, env: RelayEnvelope, author: Option<NodeId>, nowMs: u64,
                      m': MeshState, isNew: bool, result: Option<Received>, origin: NodeId, via: NodeId)
    requires Handles(m, entry, env, author, nowMs, m', isNew, result)
    ensures var taught := Teaches(m, Envelope(entry, env, author, isNew, result), origin);
      && Listing(m'.graph.indirect, origin, via)
         == (if taught.Some? && taught.value.0 == via then Some(taught.value.1)
             else Listing(m.graph.indirect, origin, via))
      && (taught.Some? ==>
            && origin in m'.graph.indirect
            && m'.graph.indirect[origin].lastSeenMs == nowMs && m'.graph.indirect[origin].nodeId
               == (if origin in m.graph.indirect then m.graph.indirect[origin].nodeId else origin)
            && (m'.graph.indirect[origin].discoveredAt, m'.graph.indirect[origin].messagesReceived)
               == (if origin in m.graph.indirect
                   then (m.graph.indirect[origin].discoveredAt, WrappingInc32(m.graph.indirect[origin].messagesReceived))
                   else (nowMs, 1)))
      && (taught.None? ==>
            && (origin in m'.graph.indirect <==> origin in m.graph.indirect)
            && (origin in m.graph.indirect ==> m'.graph.indirect[origin] == m.graph.indirect[origin]))
  {
    var source := SourceOf(m, entry);
    if source.Some? && env.hopCount <= 3 && env.originNode !in m.graph.peers {
      ReceivedLists(m.graph, source.value, env.originNode, env.hopCount, nowMs, origin, via);
    }
  }

  lemma LocalLists(m: MeshState, call: LocalCall, nowMs: u64, origin: NodeId, via: NodeId)
    requires m.graph.indirectTimeoutMs == INDIRECT_TIMEOUT_MS
    ensures var after := Perform(m, call, nowMs).graph.indirect;
      && Listing(after, origin, via)
         == (if Severs(m, Local(call)) == Some(via) then None
             else if call.CleanupIndirectPeers? && origin in m.graph.indirect
                     && nowMs > m.graph.indirect[origin].lastSeenMs + INDIRECT_TIMEOUT_MS then None
             else Listing(m.graph.indirect, origin, via))
      && (origin in after ==>
            && origin in m.graph.indirect
            && after[origin].(viaPeers := map[], minHops := 0)
               == m.graph.indirect[origin].(viaPeers := map[], minHops := 0))
  {
    CallListing(m, call, nowMs);
    if Severs(m, Local(call)).Some? {
      RemovedLists(m.graph, Severs(m, Local(call)).value, origin, via);
    }
    CleanedLists(m.graph, nowMs, origin, via);
  }

  lemma ActRecords(m: MeshState, act: Act, nowMs: u64, m': MeshState, origin: NodeId, via: NodeId, route: Option<u8>,
                   heard: Option<u64>, known: Option<(u64, u32)>)
    requires Acts(m, act, nowMs, m') && Records(m.graph, origin, via, route, heard, known)
    ensures Records(m'.graph, origin, via, NextRoute(m, act, nowMs, origin, via, heard, route),
                    NextHeard(m, act, nowMs, origin, heard), NextKnown(m, act, nowMs, origin, known))
  {
    match act
    case Local(call) =>
      CallListing(m, call, nowMs);
      LocalLists(m, call, nowMs, origin, via);
    case Envelope(entry, env, author, isNew, result) =>
      EnvelopeLists(m, entry, env, author, nowMs, m', isNew, result, origin, via);
  }

  // In every run, a route is listed exactly if it was taught and not undone since, with the hops it was
  // last taught with; and what is recorded of its origin is when it was first and last heard of, and how
  // often.
  lemma {:induction false} RoutesExactly(config: MeshConfig, run: NodeRun, origin: NodeId, via: NodeId)
    requires run.Happens(config)
    ensures Records(run.State(config).graph, origin, via, RouteTo(config, run, origin, via),
                    HeardAt(config, run, origin), Known(config, run, origin))
  {
    if run.Then? {
      RoutesExactly(config, run.before, origin, via);
      ActRecords(run.before.State(config), run.act, run.nowMs, run.after, origin, via,
                 RouteTo(config, run.before, origin, via), HeardAt(config, run.before, origin),
                 Known(config, run.before, origin));
    }
  }

  // ---------- Syncs ----------

  // The node a moment records a sync with: whoever sent a document of another node that opened, or on
  // the anonymous path its author; relayed, only if the message was new.
  function SyncsWith(m: MeshState, act: Act): (id: Option<NodeId>) {
    match act
    case Local(KnownDocument(source, author)) =>
      if author.Some? && author.value != m.config.nodeId then Some(source) else None
    case Local(DirectDocument(_, author)) =>
      if author.Some? && author.value != m.config.nodeId then author else None
    case Local(AnonymousDocument(_, source)) => Some(source)
    case Envelope(entry, _, author, isNew, _) =>
      if !isNew || author.None? || author.value == m.config.nodeId then None
      else if entry.FromAnyone? then author else SourceOf(m, entry)
    case _ => None
  }

  // The last sync with the node that no cleanup has dropped since.
  function SyncedAt(config: MeshConfig, run: NodeRun, id: NodeId): (at: Option<u64>) {
    match run
    case Started => None
    case Then(before, act, now, _) =>
      var m := before.State(config);
      if SyncsWith(m, act) == Some(id) then Some(now)
      else if act == Local(TickCall) && CleanupFires(m, now) && id in m.manager.Stale(now) then None
      else SyncedAt(config, before, id)
  }

  lemma ActSyncs(m: MeshState, act: Act, nowMs: u64, m': MeshState)
    requires Acts(m, act, nowMs, m')
    ensures m'.manager.syncHistory
         == if SyncsWith(m, act).Some? then m.manager.syncHistory[SyncsWith(m, act).value := nowMs]
            else if act == Local(TickCall) && CleanupFires(m, nowMs)
            then m.manager.syncHistory - m.manager.Stale(nowMs)
            else m.manager.syncHistory
  {
    match act
    case Local(BleDiscovered(identifier, name, rssi, meshId)) =>
      DiscoveryHistory(m.manager, identifier, name, rssi, meshId, nowMs);
    case Local(IncomingConnection(identifier, id)) => IncomingHistory(m.manager, identifier, id, nowMs);
    case Local(DirectDocument(identifier, author)) =>
      if author.Some? {
        IncomingHistory(m.manager.RecordSync(author.value, nowMs), identifier, author.value, nowMs);
      }
    case _ =>
  }

  // In every run, the sync times are exactly these.
  lemma {:induction false} SyncsExactly(config: MeshConfig, run: NodeRun, id: NodeId)
    requires run.Happens(config)
    ensures var history := run.State(config).manager.syncHistory;
      SyncedAt(config, run, id) == if id in history then Some(history[id]) else None
  {
    if run.Then? {
      SyncsExactly(config, run.before, id);
      ActSyncs(run.before.State(config), run.act, run.nowMs, run.after);
    }
  }

  // ---------- Direct peers ----------

  // The call on the peer manager that a local call amounts to.
  function ManagerCallOf(call: LocalCall, self: NodeId): (r: Option<ManagerCall>) {
    match call
    case BleDiscovered(identifier, name, rssi, meshId) => Some(Discovery(identifier, name, rssi, meshId))
    case BleConnected(identifier) => Some(Connection(identifier))
    case BleDisconnected(identifier, _) => Some(Disconnection(identifier))
    case PeerDisconnected(id, _) => Some(NodeDisconnection(id))
    case IncomingConnection(identifier, id) => Some(Incoming(identifier, id))
    case DirectDocument(identifier, author) =>
      if author.Some? && author.value != self then Some(Incoming(identifier, author.value)) else None
    case AnonymousDocument(identifier, source) => Some(Register(identifier, source))
    case _ => None
  }

  // The peer a local call connects, in the graph.
  function Links(m: MeshState, call: LocalCall): (id: Option<NodeId>) {
    match call
    case BleConnected(identifier) => NodeOf(m, identifier)
    case IncomingConnection(_, id) => Some(id)
    case DirectDocument(_, author) => if author.Some? && author.value != m.config.nodeId then author else None
    case _ => None
  }

  // The new peer a local call brings to the graph, or the one it sees again.
  function Meets(m: MeshState, call: LocalCall, nowMs: u64): (id: Option<NodeId>) {
    var asked := ManagerCallOf(call, m.config.nodeId);
    if asked.None? then None
    else match asked.value
      case Discovery(_, _, _, _) => Sighted(m.manager, asked.value, nowMs)
      case Incoming(_, id) =>
        if Sighted(m.manager, asked.value, nowMs).Some? && id !in m.manager.peers then Some(id) else None
      case _ => None
  }

  // Does a cleanup of the tick forget the peer?
  predicate Forgets(m: MeshState, call: LocalCall, nowMs: u64, id: NodeId) {
    && call.TickCall? && CleanupFires(m, nowMs)
    && id in m.graph.peers && m.graph.peers[id].state == Lost
    && nowMs > m.graph.peers[id].lastSeenMs + m.config.peer.peerTimeoutMs
  }

  // What becomes of a direct peer with any local call: it is in the graph exactly if it was and the tick
  // does not forget it, or the call brings it; and it is connected now, disconnected now for the given
  // reason, lost, found again, or as before.
  predicate DirectTold(m: MeshState, call: LocalCall, nowMs: u64, after: PeerStates, id: NodeId) {
    && (id in after <==> (id in m.graph.peers && !Forgets(m, call, nowMs, id)) || Meets(m, call, nowMs) == Some(id))
    && (id in after ==>
          var before := if id in m.graph.peers then m.graph.peers[id].state else Discovered;
          if Links(m, call) == Some(id) then after[id].state == Connected && after[id].connectedAt == Some(nowMs)
          else if Severs(m, Local(call)) == Some(id)
          then && after[id].state == Disconnected && after[id].disconnectedAt == Some(nowMs)
               && after[id].disconnectReason == Some(call.reason)
          else if call.TickCall? && CleanupFires(m, nowMs) && id in m.graph.NewlyLost(nowMs) then after[id].state == Lost
          else if Meets(m, call, nowMs) == Some(id) && before == Lost then after[id].state == Disconnected
          else after[id].state == before)
  }

  lemma DiscoveryMeets(m: MeshState, identifier: string, name: Option<string>, rssi: i8, meshId: Option<string>,
                       nowMs: u64, id: NodeId)
    ensures DirectTold(m, BleDiscovered(identifier, name, rssi, meshId), nowMs,
                       OnBleDiscovered(m, identifier, name, rssi, meshId, nowMs).graph.peers, id)
  {
  }

  lemma IncomingLinks(m: MeshState, identifier: string, from: NodeId, nowMs: u64, id: NodeId)
    ensures DirectTold(m, IncomingConnection(identifier, from), nowMs,
                       OnIncomingConnection(m, identifier, from, nowMs).graph.peers, id)
  {
  }

  lemma DocumentLinks(m: MeshState, identifier: string, author: Option<NodeId>, nowMs: u64, id: NodeId)
    ensures DirectTold(m, DirectDocument(identifier, author), nowMs,
                       OnDirectDocument(m, identifier, author, nowMs).graph.peers, id)
  {
    if author.Some? && author.value != m.config.nodeId {
      var synced := m.(manager := m.manager.RecordSync(author.value, nowMs));
      IncomingLinks(synced, identifier, author.value, nowMs, id);
      assert Sighted(synced.manager, Incoming(identifier, author.value), nowMs)
          == Sighted(m.manager, Incoming(identifier, author.value), nowMs);
    }
  }

  lemma DisconnectionSevers(m: MeshState, call: LocalCall, nowMs: u64, id: NodeId)
    requires call.BleDisconnected? || call.PeerDisconnected?
    ensures DirectTold(m, call, nowMs, Perform(m, call, nowMs).graph.peers, id)
  {
  }

  lemma TickForgets(m: MeshState, nowMs: u64, id: NodeId)
    ensures DirectTold(m, TickCall, nowMs, Ticked(m, nowMs).graph.peers, id)
  {
  }

  lemma DirectPeersTell(m: MeshState, call: LocalCall, nowMs: u64, id: NodeId)
    ensures DirectTold(m, call, nowMs, Perform(m, call, nowMs).graph.peers, id)
  {
    match call
    case BleDiscovered(identifier, name, rssi, meshId) => DiscoveryMeets(m, identifier, name, rssi, meshId, nowMs, id);
    case IncomingConnection(identifier, from) => IncomingLinks(m, identifier, from, nowMs, id);
    case DirectDocument(identifier, author) => DocumentLinks(m, identifier, author, nowMs, id);
    case BleDisconnected(_, _) => DisconnectionSevers(m, call, nowMs, id);
    case PeerDisconnected(_, _) => DisconnectionSevers(m, call, nowMs, id);
    case TickCall => TickForgets(m, nowMs, id);
    case _ =>
  }

  // The manager follows the same calls, and the tick's cleanup.
  lemma ManagerFollows(m: MeshState, call: LocalCall, nowMs: u64)
    ensures var asked, after := ManagerCallOf(call, m.config.nodeId), Perform(m, call, nowMs).manager;
      after.(syncHistory := map[])
      == (if asked.Some? then Called(m.manager, asked.value, nowMs)
          else if call.TickCall? && CleanupFires(m, nowMs) then Called(m.manager, Cleanup, nowMs)
          else m.manager).(syncHistory := map[])
  {
  }

  // ---------- Broadcasts ----------

  // The tick broadcasts exactly when the sync timer fires and some peer is connected once stale ones
  // have gone.
  lemma BroadcastsExactly(m: MeshState, nowMs: u64)
    ensures Broadcasts(m, nowMs)
       <==> && SyncFires(m, nowMs)
            && exists id :: id in Ticked(m, nowMs).manager.peers && Ticked(m, nowMs).manager.peers[id].isConnected
  {
    if id :| id in Ticked(m, nowMs).manager.peers && Ticked(m, nowMs).manager.peers[id].isConnected {
      assert id in Maintained(m, nowMs).manager.ConnectedIds();
    }
  }
}
