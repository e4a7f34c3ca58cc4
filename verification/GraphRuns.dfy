/** What the connection graph keeps over every run of calls. */
module GraphRuns {
  import opened Common
  import opened Peers
  import opened PeerGraph

  datatype GraphCall =
    | Discover(nodeId: NodeId, identifier: string, name: Option<string>, meshId: Option<string>, rssi: i8, nowMs: u64)
    | Connecting(nodeId: NodeId, nowMs: u64)
    | Connect(nodeId: NodeId, nowMs: u64)
    | Disconnect(nodeId: NodeId, reason: DisconnectReason, nowMs: u64)
    | Signal(nodeId: NodeId, rssi: i8, nowMs: u64)
    | Tick(nowMs: u64)
    | CleanupLost(olderThanMs: u64, nowMs: u64)
    | Import(peer: PeatPeer, nowMs: u64)
    | RelayReceived(source: NodeId, origin: NodeId, hopCount: u8, nowMs: u64)
    | CleanupIndirect(nowMs: u64)
    | RemoveVia(via: NodeId)

  function Apply(g: Graph, call: GraphCall): (r: Graph) {
    match call
    case Discover(id, identifier, name, meshId, rssi, now) => g.OnDiscovered(id, identifier, name, meshId, rssi, now)
    case Connecting(id, now) => g.OnConnecting(id, now)
    case Connect(id, now) => g.OnConnected(id, now)
    case Disconnect(id, reason, now) => g.OnDisconnected(id, reason, now)
    case Signal(id, rssi, now) => g.UpdateRssi(id, rssi, now)
    case Tick(now) => g.Tick(now)
    case CleanupLost(olderThan, now) => g.CleanupLost(olderThan, now)
    case Import(peer, now) => g.ImportPeer(peer, now)
    case RelayReceived(source, origin, hops, now) => g.OnRelayReceived(source, origin, hops, now)
    case CleanupIndirect(now) => g.CleanupIndirect(now)
    case RemoveVia(via) => g.RemoveViaPeer(via)
  }

  function Run(g: Graph, calls: seq<GraphCall>): (r: Graph)
    decreases |calls|
  {
    if calls == [] then g else Run(Apply(g, calls[0]), calls[1..])
  }

  // ---------- The invariant ----------

  // A connected peer has a connection on record; a disconnected or lost one knows when and why.
  predicate HistoryKept(p: PeerConnectionState) {
    && (p.state.IsConnected() ==> p.connectedAt.Some? && p.connectionCount >= 1)
    && (p.state == Disconnected || p.state == Lost ==> p.disconnectedAt.Some? && p.disconnectReason.Some?)
  }

  // An indirect peer has a route, its minimum is the true minimum, and no route is too long.
  ghost predicate RoutesKept(q: IndirectPeer) {
    && IsLeastHop(q.viaPeers, q.minHops)
    && forall v :: v in q.viaPeers ==> q.viaPeers[v] <= MAX_TRACKED_DEGREE
  }

  ghost predicate GraphKept(g: Graph) {
    && (forall id :: id in g.peers ==> HistoryKept(g.peers[id]))
    && (forall id :: id in g.indirect ==> RoutesKept(g.indirect[id]))
  }

  lemma UpdatePathKeeps(q: IndirectPeer, via: NodeId, hops: u8, nowMs: u64)
    requires RoutesKept(q) && hops <= MAX_TRACKED_DEGREE
    ensures RoutesKept(q.UpdatePath(via, hops, nowMs))
  {
    var q' := q.UpdatePath(via, hops, nowMs);
    assert q'.viaPeers[via] == hops;
  }

  lemma RelayReceivedKeeps(g: Graph, source: NodeId, origin: NodeId, hops: u8, nowMs: u64)
    requires GraphKept(g)
    ensures GraphKept(g.OnRelayReceived(source, origin, hops, nowMs))
  {
    if g.TracksRelay(origin, hops) {
      if origin in g.indirect {
        UpdatePathKeeps(g.indirect[origin], source, hops, nowMs);
      } else {
        var q := IndirectPeer.New(origin, source, hops, nowMs);
        assert q.viaPeers[source] == hops;
      }
    }
  }

  lemma WithoutViaKeeps(q: IndirectPeer, via: NodeId)
    requires RoutesKept(q) && q.viaPeers.Keys - {via} != {}
    ensures RoutesKept(q.WithoutVia(via))
  {
    var routes := q.viaPeers - {via};
    assert routes.Keys == q.viaPeers.Keys - {via};
  }

  lemma ApplyKeeps(g: Graph, call: GraphCall)
    requires GraphKept(g)
    ensures GraphKept(Apply(g, call))
  {
    match call
    case RelayReceived(source, origin, hops, now) => RelayReceivedKeeps(g, source, origin, hops, now);
    case RemoveVia(via) =>
      forall id | id in g.RemoveViaPeer(via).indirect ensures RoutesKept(g.RemoveViaPeer(via).indirect[id]) {
        WithoutViaKeeps(g.indirect[id], via);
      }
    case _ =>
  }

  // Whatever calls are made, the graph keeps its history and its routes.
  lemma {:induction false} RunKeeps(g: Graph, calls: seq<GraphCall>)
    requires GraphKept(g)
    ensures GraphKept(Run(g, calls))
    decreases |calls|
  {
    if calls != [] {
      ApplyKeeps(g, calls[0]);
      RunKeeps(Apply(g, calls[0]), calls[1..]);
    }
  }

  lemma EveryReachableGraphKept(threshold: i8, lostTimeoutMs: u64, calls: seq<GraphCall>)
    ensures GraphKept(Run(NewGraph(threshold, lostTimeoutMs), calls))
  {
    RunKeeps(NewGraph(threshold, lostTimeoutMs), calls);
  }

  // ---------- One call at a time ----------

  // The peer a call is about, if it is about one.
  function About(call: GraphCall): (r: Option<NodeId>) {
    match call
    case Discover(id, _, _, _, _, _) => Some(id)
    case Connecting(id, _) => Some(id)
    case Connect(id, _) => Some(id)
    case Disconnect(id, _, _) => Some(id)
    case Signal(id, _, _) => Some(id)
    case Import(peer, _) => Some(peer.nodeId)
    case _ => None
  }

  // A call about one peer leaves every other direct peer and all routes alone, and afterwards that
  // peer, if tracked, was last seen at the time of the call, or for an import when the peer was.
  lemma CallFrame(g: Graph, call: GraphCall, id: NodeId)
    requires About(call).Some?
    ensures Apply(g, call).indirect == g.indirect
    ensures About(call) != Some(id) ==>
      (id in Apply(g, call).peers <==> id in g.peers) && (id in g.peers ==> Apply(g, call).peers[id] == g.peers[id])
    ensures About(call) == Some(id) && id in Apply(g, call).peers ==>
      Apply(g, call).peers[id].lastSeenMs == if call.Import? then call.peer.lastSeenMs else call.nowMs
  {
  }

  // Which call moves the peer into this other state.
  predicate Moves(g: Graph, call: GraphCall, id: NodeId, to: ConnectionState)
    requires id in g.peers
  {
    var before := g.peers[id].state;
    match to
    case Discovered => call.Import? && About(call) == Some(id) && !call.peer.isConnected
    case Connecting => call.Connecting? && call.nodeId == id
    case Connected =>
      || (call.Connect? && call.nodeId == id)
      || (call.Import? && About(call) == Some(id) && call.peer.isConnected)
      || (call.Signal? && call.nodeId == id && before == Degraded && call.rssi >= g.rssiDegradedThreshold)
    case Degraded => call.Signal? && call.nodeId == id && before == Connected && call.rssi < g.rssiDegradedThreshold
    case Disconnecting => false
    case Disconnected => (call.Disconnect? && call.nodeId == id) || (call.Discover? && call.nodeId == id && before == Lost)
    case Lost => call.Tick? && id in g.NewlyLost(call.nowMs)
  }

  // The whole state machine: a tracked peer is in another state afterwards exactly if the call is one of
  // these, and outside imports its connection count grows by one exactly when it connects.
  lemma StateMachine(g: Graph, call: GraphCall, id: NodeId, to: ConnectionState)
    requires id in g.peers && id in Apply(g, call).peers && to != g.peers[id].state
    ensures Apply(g, call).peers[id].state == to <==> Moves(g, call, id, to)
    ensures (call.Import? && About(call) == Some(id))
      || Apply(g, call).peers[id].connectionCount
         == g.peers[id].connectionCount + if call.Connect? && call.nodeId == id then 1 else 0
  {
  }

  // Which peers are tracked: those that were and are not cleaned up, and the one discovered or imported,
  // which begins as a discovered peer of that moment unless it is imported as connected.
  lemma TrackedExactly(g: Graph, call: GraphCall, id: NodeId)
    ensures var after := Apply(g, call).peers;
      && (id in after <==>
            || (id in g.peers && !(call.CleanupLost? && id in g.LongLost(call.olderThanMs, call.nowMs)))
            || ((call.Discover? || call.Import?) && About(call) == Some(id)))
      && (id in after && id !in g.peers ==>
            && after[id].state == (if call.Import? && call.peer.isConnected then Connected else Discovered)
            && after[id].discoveredAt == call.nowMs && after[id].nodeId == id
            && after[id].connectionCount == (if after[id].state == Connected then 1 else 0))
    ensures call.CleanupLost? ==>
      (id in g.LongLost(call.olderThanMs, call.nowMs)
       <==> IsLost(g, id) && call.nowMs > g.peers[id].lastSeenMs + call.olderThanMs)
  {
  }

  // What is recorded of a tracked peer comes from the last call of its kind: when it connected and
  // disconnected and why, its signal, name and mesh.
  lemma RecordTells(g: Graph, call: GraphCall, id: NodeId)
    requires id in g.peers && id in Apply(g, call).peers
    ensures var before, after, here := g.peers[id], Apply(g, call).peers[id], About(call) == Some(id);
      if call.Import? && here then
        && after.lastRssi == Some(call.peer.rssi) && after.name == call.peer.name && after.meshId == call.peer.meshId
        && after.identifier == call.peer.identifier
        && after.connectedAt == (if call.peer.isConnected then Some(call.nowMs) else None)
      else
        && after.identifier == before.identifier && after.discoveredAt == before.discoveredAt
        && after.connectedAt == (if call.Connect? && here then Some(call.nowMs) else before.connectedAt)
        && after.disconnectedAt == (if call.Disconnect? && here then Some(call.nowMs) else before.disconnectedAt)
        && after.disconnectReason
           == (if call.Disconnect? && here then Some(call.reason) else if call.Connect? && here then None
               else before.disconnectReason)
        && after.lastRssi == (if (call.Discover? || call.Signal?) && here then Some(call.rssi) else before.lastRssi)
        && after.name == (if call.Discover? && here && call.name.Some? then call.name else before.name)
        && after.meshId == (if call.Discover? && here && call.meshId.Some? then call.meshId else before.meshId)
  {
  }

  // ---------- Becoming lost ----------

  predicate IsLost(g: Graph, id: NodeId) {
    id in g.peers && g.peers[id].state == Lost
  }

  // The only way into Lost is a tick that finds the peer disconnected for longer than the timeout.
  lemma LostOnlyByTick(g: Graph, call: GraphCall, id: NodeId)
    requires IsLost(Apply(g, call), id) && !IsLost(g, id)
    ensures call.Tick? && id in g.peers && g.peers[id].Overdue(call.nowMs, g.lostTimeoutMs)
  {
  }

  // A tick reports exactly the peers it moves from Disconnected to Lost: those disconnected for longer
  // than the timeout.
  lemma TickReportsExactly(g: Graph, nowMs: u64, id: NodeId)
    ensures id in Elements(Ascending(g.NewlyLost(nowMs)))
       <==> id in g.peers && g.peers[id].state == Disconnected && IsLost(g.Tick(nowMs), id)
    ensures id in g.NewlyLost(nowMs)
       <==> && id in g.peers && g.peers[id].state == Disconnected && g.peers[id].disconnectedAt.Some?
            && nowMs > g.peers[id].disconnectedAt.value + g.lostTimeoutMs
    ensures id in g.peers && id !in g.NewlyLost(nowMs) ==> g.Tick(nowMs).peers[id] == g.peers[id]
  {
    AscendingListing(g.NewlyLost(nowMs));
  }

  // A peer just declared lost survives the cleanup of the same instant.
  lemma FreshLossSurvives(g: Graph, nowMs: u64, olderThanMs: u64, id: NodeId)
    requires id in g.NewlyLost(nowMs)
    ensures IsLost(g.Tick(nowMs).CleanupLost(olderThanMs, nowMs), id)
  {
    assert g.Tick(nowMs).peers[id] == g.peers[id].SetLost(nowMs);
  }

  // ---------- Routes ----------

  // Removing a relay peer drops exactly the nodes reachable only through it, and takes exactly
  // its routes from the others.
  lemma RemoveViaExact(g: Graph, via: NodeId, id: NodeId)
    requires GraphKept(g)
    ensures id in g.RemoveViaPeer(via).indirect <==> id in g.indirect && g.indirect[id].viaPeers.Keys != {via}
    ensures id in g.RemoveViaPeer(via).indirect ==>
      && g.RemoveViaPeer(via).indirect[id].viaPeers == g.indirect[id].viaPeers - {via}
      && IsLeastHop(g.indirect[id].viaPeers - {via}, g.RemoveViaPeer(via).indirect[id].minHops)
  {
    if id in g.indirect {
      var keys := g.indirect[id].viaPeers.Keys;
      assert RoutesKept(g.indirect[id]);
      assert keys != {};
      assert keys - {via} == {} <==> keys == {via};
      if keys - {via} != {} {
        WithoutViaKeeps(g.indirect[id], via);
      }
    }
  }

  // A route is better, as an update answers, exactly when the minimum falls, and afterwards the
  // minimum is that of the old routes with this one replaced.
  lemma UpdatePathMinimum(q: IndirectPeer, via: NodeId, hops: u8, nowMs: u64)
    requires RoutesKept(q)
    ensures IsLeastHop(q.viaPeers[via := hops], q.UpdatePath(via, hops, nowMs).minHops)
    ensures q.IsBetter(hops) <==> q.UpdatePath(via, hops, nowMs).minHops < q.minHops
    ensures q.UpdatePath(via, hops, nowMs).viaPeers == q.viaPeers[via := hops]
    ensures !q.UpdatePath(via, hops, nowMs).IsStale(nowMs, 0)
  {
    var routes := q.viaPeers[via := hops];
    assert routes[via] == hops;
    forall v | v in routes ensures routes[v] >= q.minHops || v == via {
    }
  }

  // ---------- Counts ----------

  lemma CountingOne(a: StateCountSummary, s: ConnectionState, t: ConnectionState)
    ensures a.Counting(s).Of(t) == a.Of(t) + (if s == t then 1 else 0)
    ensures a.Counting(s).Total() == a.Total() + 1
  {
  }

  lemma KeysInStateNext(peers: PeerStates, keys: set<NodeId>, k: NodeId, s: ConnectionState)
    requires keys <= peers.Keys && k in keys
    ensures |KeysInState(peers, keys, s)|
         == |KeysInState(peers, keys - {k}, s)| + (if peers[k].state == s then 1 else 0)
  {
    var all, others := KeysInState(peers, keys, s), KeysInState(peers, keys - {k}, s);
    if peers[k].state == s {
      assert k in all && all - {k} == others;
    } else {
      assert all == others;
    }
  }

  lemma {:induction false} CountsExact(peers: PeerStates, keys: set<NodeId>, s: ConnectionState)
    requires keys <= peers.Keys
    ensures CountStates(peers, keys).Of(s) == |KeysInState(peers, keys, s)|
    ensures CountStates(peers, keys).Total() == |keys|
  {
    if keys != {} {
      var k := Least(keys);
      var rest := keys - {k};
      assert |keys| == |rest| + 1;
      CountsExact(peers, rest, s);
      KeysInStateNext(peers, keys, k, s);
      CountingOne(CountStates(peers, rest), peers[k].state, s);
    }
  }

  // Every tracked peer is counted once, under its own state.
  lemma StateCountsAgree(g: Graph, s: ConnectionState)
    ensures CountStates(g.peers, g.peers.Keys).Total() == |g.peers|
    ensures CountStates(g.peers, g.peers.Keys).Of(s) == |KeysInState(g.peers, g.peers.Keys, s)|
  {
    CountsExact(g.peers, g.peers.Keys, s);
  }

  // The hop counts add up to the number of indirect peers exactly when each is one to three hops away.
  lemma IndirectTotal(g: Graph)
    ensures |g.AtHops(1)| + |g.AtHops(2)| + |g.AtHops(3)| == |g.indirect|
       <==> forall id :: id in g.indirect ==> 1 <= g.indirect[id].minHops <= 3
  {
    var near := g.AtHops(1) + g.AtHops(2) + g.AtHops(3);
    assert g.AtHops(1) !! g.AtHops(2) && g.AtHops(1) + g.AtHops(2) !! g.AtHops(3);
    assert |near| == |g.AtHops(1)| + |g.AtHops(2)| + |g.AtHops(3)|;
    assert near <= g.indirect.Keys && |g.indirect.Keys| == |g.indirect|;
    if |near| == |g.indirect| {
      SubsetOfSameSize(near, g.indirect.Keys);
    } else {
      assert near != g.indirect.Keys;
      var id :| id in g.indirect.Keys && id !in near;
    }
  }

  lemma SubsetOfSameSize(a: set<NodeId>, b: set<NodeId>)
    requires a <= b && |a| == |b|
    ensures a == b
  {
    assert |b - a| == |b| - |a|;
  }
}
