/** The connection state graph as the program keeps it: maps updated in place, with loops in key
    order, each call doing what the functions of PeerGraph say. */
module ConnectionGraph {
  import opened Common
  import opened Peers
  import opened PeerGraph

  // ---------- The loops, over one map each ----------

  lemma TickedNext(before: PeerStates, handled: set<NodeId>, id: NodeId, nowMs: u64)
    requires id in before && id !in handled
    ensures TickedPeers(before, handled, nowMs)[id] == before[id]
    ensures TickedPeers(before, handled + {id}, nowMs)
         == TickedPeers(before, handled, nowMs)[id := before[id].SetLost(nowMs)]
  {
  }

  method TickLoop(before: PeerStates, lostTimeoutMs: u64, nowMs: u64)
    returns (peers: PeerStates, newlyLost: seq<NodeId>)
    ensures peers == TickedPeers(before, OverdueAmong(before, lostTimeoutMs, nowMs), nowMs)
    ensures newlyLost == Ascending(OverdueAmong(before, lostTimeoutMs, nowMs))
  {
    ghost var wanted := OverdueAmong(before, lostTimeoutMs, nowMs);
    peers, newlyLost := before, [];
    var left := peers.Keys;
    assert wanted * left == wanted && wanted - left == {};
    assert peers == TickedPeers(before, {}, nowMs);
    while left != {}
      invariant left <= before.Keys
      invariant peers == TickedPeers(before, wanted - left, nowMs)
      invariant newlyLost + Ascending(wanted * left) == Ascending(wanted)
      decreases left
    {
      var id := Least(left);
      CollectNext(newlyLost, wanted, left);
      TickedNext(before, wanted - left, id, nowMs);
      var peer := peers[id];
      assert id in wanted <==> before[id].Overdue(nowMs, lostTimeoutMs);
      if peer.state == Disconnected && peer.disconnectedAt.Some?
         && SaturatingSub(nowMs, peer.disconnectedAt.value) > lostTimeoutMs {
        assert wanted - (left - {id}) == (wanted - left) + {id};
        peers := peers[id := peer.SetLost(nowMs)];
        newlyLost := newlyLost + [id];
      } else {
        assert wanted - (left - {id}) == wanted - left;
      }
      left := left - {id};
    }
    assert wanted * left == {} && wanted - left == wanted;
  }

  method SweepLoop(before: IndirectPeers, via: NodeId) returns (swept: IndirectPeers, toRemove: seq<NodeId>)
    ensures swept.Keys == before.Keys && forall id :: id in before ==> swept[id] == before[id].WithoutVia(via)
    ensures toRemove == Ascending(OnlyVia(before, via))
  {
    ghost var cutOff := OnlyVia(before, via);
    swept, toRemove := before, [];
    var left := swept.Keys;
    assert cutOff * left == cutOff;
    while left != {}
      invariant left <= before.Keys && swept.Keys == before.Keys
      invariant forall id :: id in before ==> swept[id] == if id in left then before[id] else before[id].WithoutVia(via)
      invariant toRemove + Ascending(cutOff * left) == Ascending(cutOff)
      decreases left
    {
      var id := Least(left);
      CollectNext(toRemove, cutOff, left);
      var peer := swept[id];
      var routes := peer.viaPeers - {via};
      RoutesLeft(peer.viaPeers, via);
      if routes == map[] {
        toRemove := toRemove + [id];
      }
      swept := swept[id := peer.WithoutVia(via)];
      left := left - {id};
    }
    assert cutOff * left == {};
  }

  method CountLoop(peers: PeerStates) returns (summary: StateCountSummary)
    ensures summary == CountStates(peers, peers.Keys)
  {
    summary := StateCountSummary(0, 0, 0, 0, 0, 0, 0);
    var left := peers.Keys;
    while left != {}
      invariant left <= peers.Keys
      invariant summary.Plus(CountStates(peers, left)) == CountStates(peers, peers.Keys)
      decreases left
    {
      var id := Least(left);
      CountingPlus(summary, CountStates(peers, left - {id}), peers[id].state);
      summary := summary.Counting(peers[id].state);
      left := left - {id};
    }
  }

  lemma CountingPlus(a: StateCountSummary, b: StateCountSummary, s: ConnectionState)
    ensures a.Counting(s).Plus(b) == a.Plus(b.Counting(s))
  {
  }

  lemma RoutesLeft(routes: map<NodeId, u8>, via: NodeId)
    ensures (routes - {via} == map[]) <==> (routes.Keys - {via} == {})
  {
    assert (routes - {via}).Keys == routes.Keys - {via};
  }

  class ConnectionStateGraph {
    var peers: map<NodeId, PeerConnectionState>
    var indirectPeers: map<NodeId, IndirectPeer>
    const rssiDegradedThreshold: i8
    const lostTimeoutMs: u64
    const indirectPeerTimeoutMs: u64

    function State(): (r: Graph)
      reads this
    {
      Graph(peers, indirectPeers, rssiDegradedThreshold, lostTimeoutMs, indirectPeerTimeoutMs)
    }

    constructor WithConfig(rssiDegradedThreshold: i8, lostTimeoutMs: u64)
      ensures State() == NewGraph(rssiDegradedThreshold, lostTimeoutMs)
    {
      peers := map[];
      indirectPeers := map[];
      this.rssiDegradedThreshold := rssiDegradedThreshold;
      this.lostTimeoutMs := lostTimeoutMs;
      indirectPeerTimeoutMs := 120_000;
    }

    method OnDiscovered(nodeId: NodeId, identifier: string, name: Option<string>, meshId: Option<string>,
                        rssi: i8, nowMs: u64)
      modifies `peers
      ensures State() == old(State()).OnDiscovered(nodeId, identifier, name, meshId, rssi, nowMs)
    {
      if nodeId !in peers {
        peers := peers[nodeId := PeerConnectionState.NewDiscovered(nodeId, identifier, nowMs)];
      }
      var entry := peers[nodeId];
      entry := entry.(lastRssi := Some(rssi), lastSeenMs := nowMs);
      if name.Some? {
        entry := entry.(name := name);
      }
      if meshId.Some? {
        entry := entry.(meshId := meshId);
      }
      if entry.state == Lost {
        entry := entry.(state := Disconnected);
      }
      peers := peers[nodeId := entry];
    }

    method OnConnecting(nodeId: NodeId, nowMs: u64)
      modifies `peers
      ensures State() == old(State()).OnConnecting(nodeId, nowMs)
    {
      if nodeId in peers {
        peers := peers[nodeId := peers[nodeId].SetConnecting(nowMs)];
      }
    }

    method OnConnected(nodeId: NodeId, nowMs: u64)
      modifies `peers
      ensures State() == old(State()).OnConnected(nodeId, nowMs)
    {
      if nodeId in peers {
        peers := peers[nodeId := peers[nodeId].SetConnected(nowMs)];
      }
    }

    method OnDisconnected(nodeId: NodeId, reason: DisconnectReason, nowMs: u64)
      modifies `peers
      ensures State() == old(State()).OnDisconnected(nodeId, reason, nowMs)
    {
      if nodeId in peers {
        peers := peers[nodeId := peers[nodeId].SetDisconnected(nowMs, reason)];
      }
    }

    method UpdateRssi(nodeId: NodeId, rssi: i8, nowMs: u64) returns (degraded: bool)
      modifies `peers
      ensures State() == old(State()).UpdateRssi(nodeId, rssi, nowMs)
      ensures degraded <==> nodeId in old(peers) && old(peers)[nodeId].state != Degraded
                            && peers[nodeId].state == Degraded
    {
      degraded := false;
      if nodeId in peers {
        var before := peers[nodeId];
        peers := peers[nodeId := before.UpdateRssi(rssi, nowMs, rssiDegradedThreshold)];
        degraded := before.state == Connected && rssi < rssiDegradedThreshold;
      }
    }

    method Tick(nowMs: u64) returns (newlyLost: seq<NodeId>)
      modifies `peers
      ensures State() == old(State()).Tick(nowMs)
      ensures newlyLost == Ascending(old(State()).NewlyLost(nowMs))
    {
      peers, newlyLost := TickLoop(peers, lostTimeoutMs, nowMs);
    }

    method CleanupLost(olderThanMs: u64, nowMs: u64) returns (removed: seq<NodeId>)
      modifies `peers
      ensures State() == old(State()).CleanupLost(olderThanMs, nowMs)
      ensures removed == Ascending(old(State()).LongLost(olderThanMs, nowMs))
    {
      removed := Ascending(set id | id in peers && peers[id].LongLost(olderThanMs, nowMs));
      AscendingListing(State().LongLost(olderThanMs, nowMs));
      peers := RemoveAll(peers, removed);
    }

    method ImportPeer(peer: PeatPeer, nowMs: u64)
      modifies `peers
      ensures State() == old(State()).ImportPeer(peer, nowMs)
    {
      peers := peers[peer.nodeId := PeerConnectionState.FromPeer(peer, nowMs)];
    }

    method OnRelayReceived(source: NodeId, origin: NodeId, hopCount: u8, nowMs: u64) returns (isNew: bool)
      modifies `indirectPeers
      ensures State() == old(State()).OnRelayReceived(source, origin, hopCount, nowMs)
      ensures isNew <==> origin in indirectPeers && origin !in old(indirectPeers)
    {
      isNew := false;
      if hopCount > MAX_TRACKED_DEGREE {
        return;
      }
      if origin in peers {
        return;
      }
      if origin in indirectPeers {
        indirectPeers := indirectPeers[origin := indirectPeers[origin].UpdatePath(source, hopCount, nowMs)];
      } else {
        indirectPeers := indirectPeers[origin := IndirectPeer.New(origin, source, hopCount, nowMs)];
        isNew := true;
      }
    }

    method CleanupIndirect(nowMs: u64) returns (removed: seq<NodeId>)
      modifies `indirectPeers
      ensures State() == old(State()).CleanupIndirect(nowMs)
      ensures removed == Ascending(old(State()).StaleIndirect(nowMs))
    {
      removed := Ascending(set id | id in indirectPeers && indirectPeers[id].IsStale(nowMs, indirectPeerTimeoutMs));
      AscendingListing(State().StaleIndirect(nowMs));
      indirectPeers := RemoveAll(indirectPeers, removed);
    }

    method RemoveViaPeer(via: NodeId)
      modifies `indirectPeers
      ensures State() == old(State()).RemoveViaPeer(via)
    {
      ghost var before := indirectPeers;
      var swept, toRemove := SweepLoop(indirectPeers, via);
      AscendingListing(OnlyVia(indirectPeers, via));
      indirectPeers := RemoveAll(swept, toRemove);
      assert indirectPeers == WithoutRoutes(before, via);
    }

    method StateCounts() returns (summary: StateCountSummary)
      ensures summary == CountStates(State().peers, State().peers.Keys)
    {
      summary := CountLoop(peers);
    }

    // Indirect peers one, two and three hops away.
    method HopCounts() returns (oneHop: nat, twoHop: nat, threeHop: nat)
      ensures oneHop == |State().AtHops(1)| && twoHop == |State().AtHops(2)| && threeHop == |State().AtHops(3)|
    {
      oneHop, twoHop, threeHop := HopLoop(indirectPeers);
    }
  }

  // The peers h hops away whose identifier is not left to visit.
  function VisitedAtHops(indirect: IndirectPeers, h: int, left: set<NodeId>): (r: nat) {
    |AmongAtHops(indirect, h) - left|
  }

  lemma VisitNext(indirect: IndirectPeers, h: int, left: set<NodeId>, id: NodeId)
    requires id in left && id in indirect
    ensures VisitedAtHops(indirect, h, left - {id})
         == VisitedAtHops(indirect, h, left) + (if indirect[id].minHops == h then 1 else 0)
  {
    CountOneMore(AmongAtHops(indirect, h), left, id);
  }

  lemma VisitEnds(indirect: IndirectPeers, h: int)
    ensures VisitedAtHops(indirect, h, indirect.Keys) == 0
    ensures VisitedAtHops(indirect, h, {}) == |AmongAtHops(indirect, h)|
  {
    assert AmongAtHops(indirect, h) - indirect.Keys == {};
    assert AmongAtHops(indirect, h) - {} == AmongAtHops(indirect, h);
  }

  method HopLoop(indirect: IndirectPeers) returns (oneHop: nat, twoHop: nat, threeHop: nat)
    ensures oneHop == |AmongAtHops(indirect, 1)|
    ensures twoHop == |AmongAtHops(indirect, 2)|
    ensures threeHop == |AmongAtHops(indirect, 3)|
  {
    oneHop, twoHop, threeHop := 0, 0, 0;
    VisitEnds(indirect, 1);
    VisitEnds(indirect, 2);
    VisitEnds(indirect, 3);
    var left := indirect.Keys;
    while left != {}
      invariant left <= indirect.Keys
      invariant oneHop == VisitedAtHops(indirect, 1, left)
      invariant twoHop == VisitedAtHops(indirect, 2, left)
      invariant threeHop == VisitedAtHops(indirect, 3, left)
      decreases left
    {
      var id := Least(left);
      VisitNext(indirect, 1, left, id);
      VisitNext(indirect, 2, left, id);
      VisitNext(indirect, 3, left, id);
      var hops := indirect[id].minHops;
      if hops == 1 {
        oneHop := oneHop + 1;
      } else if hops == 2 {
        twoHop := twoHop + 1;
      } else if hops == 3 {
        threeHop := threeHop + 1;
      }
      left := left - {id};
    }
  }

  lemma CountOneMore(counted: set<NodeId>, left: set<NodeId>, id: NodeId)
    requires id in left
    ensures |counted - (left - {id})| == |counted - left| + (if id in counted then 1 else 0)
  {
    assert counted - (left - {id}) == (counted - left) + (if id in counted then {id} else {});
  }
}
