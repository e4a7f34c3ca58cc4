/** The PeatMesh object (src/peat_mesh.rs): its components updated in place by each call, tied to
    the functions of module Mesh. Decryption and document parsing are given from outside: each is a
    function from payload bytes to the author of the document inside, or nothing. */
module PeatMeshObject {
  import opened Common
  import opened Relay
  import SeenCache
  import opened Peers
  import opened Gossip
  import opened PeerGraph
  import opened ConnectionGraph
  import opened PeerManagement
  import opened Mesh

  const PEER_E2EE_MARKER: u8 := 0xAF
  const KEY_EXCHANGE_MARKER: u8 := 0xB0

  // What the platform learns about received data, with the bytes to forward.
  datatype DataReceived = DataReceived(source: NodeId, relayData: Option<seq<u8>>, origin: Option<NodeId>, hopCount: u8)

  function OnWire(r: Option<Received>): (result: Option<DataReceived>) {
    match r
    case None => None
    case Some(d) => Some(DataReceived(d.source, if d.relay.Some? then Some(d.relay.value.Encode()) else None, d.origin, d.hopCount))
  }

  // A document is reported unless it fails to open or is our own.
  function Reported(author: Option<NodeId>, self: NodeId, relayData: Option<seq<u8>>, origin: Option<NodeId>,
                    hopCount: u8)
    : (r: Option<DataReceived>)
  {
    if author.None? || author.value == self then None
    else Some(DataReceived(author.value, relayData, origin, hopCount))
  }

  // What process_relay_envelope decides about a new message.
  datatype RelayDecision = RelayDecision(
    payload: seq<u8>, origin: NodeId, hopCount: u8, shouldRelay: bool, relayEnvelope: Option<RelayEnvelope>)

  // The connected peers other than the excluded one, in order.
  function Candidates(connected: seq<PeatPeer>, exclude: Option<NodeId>): (r: seq<PeatPeer>) {
    if connected == [] then []
    else
      var rest := Candidates(connected[..|connected| - 1], exclude);
      var last := connected[|connected| - 1];
      if exclude == Some(last.nodeId) then rest else rest + [last]
  }

  lemma {:induction false} CandidatesExact(connected: seq<PeatPeer>, exclude: Option<NodeId>)
    ensures forall p :: p in Candidates(connected, exclude) <==> p in connected && exclude != Some(p.nodeId)
    ensures |Candidates(connected, exclude)| <= |connected|
  {
    if connected != [] {
      CandidatesExact(connected[..|connected| - 1], exclude);
      assert connected == connected[..|connected| - 1] + [connected[|connected| - 1]];
    }
  }

  lemma {:induction false} CandidatesDistinct(connected: seq<PeatPeer>, exclude: Option<NodeId>)
    requires DistinctNodes(connected)
    ensures DistinctNodes(Candidates(connected, exclude))
  {
    if connected != [] {
      var init := connected[..|connected| - 1];
      CandidatesDistinct(init, exclude);
      CandidatesExact(init, exclude);
      var rest := Candidates(init, exclude);
      forall i | 0 <= i < |rest| ensures rest[i].nodeId != connected[|init|].nodeId {
        assert rest[i] in init;
        var k :| 0 <= k < |init| && init[k] == rest[i];
        assert connected[k] == rest[i];
      }
    }
  }

  class PeatMesh {
    const config: MeshConfig
    const manager: PeerManager
    const graph: ConnectionStateGraph
    const seen: SeenCache.SeenMessageCache
    var lastSyncMs: u32
    var lastCleanupMs: u32
    const openDocument: seq<u8> -> Option<NodeId>
    const openLegacy: seq<u8> -> Option<NodeId>

    function State(): (r: MeshState)
      reads this, manager, graph, seen
    {
      MeshState(config, manager.State(), graph.State(), seen.State(), lastSyncMs, lastCleanupMs)
    }

    ghost predicate Valid()
      reads this, manager, graph, seen
    {
      manager.nodeId == config.nodeId && manager.config == config.peer
    }

    constructor (config: MeshConfig, openDocument: seq<u8> -> Option<NodeId>, openLegacy: seq<u8> -> Option<NodeId>)
      ensures Valid() && fresh(manager) && fresh(graph) && fresh(seen)
      ensures State() == NewMesh(config)
    {
      this.config := config;
      manager := new PeerManager(config.nodeId, config.peer);
      graph := new ConnectionStateGraph.WithConfig(config.peer.rssiDegradedThreshold, config.peer.lostTimeoutMs);
      seen := new SeenCache.SeenMessageCache.WithTtl(config.seenTtlMs);
      lastSyncMs, lastCleanupMs := 0, 0;
      this.openDocument := openDocument;
      this.openLegacy := openLegacy;
    }

    // ---------- Platform callbacks ----------

    method OnBleDiscovered(identifier: string, name: Option<string>, rssi: i8, meshId: Option<string>, nowMs: u64)
      returns (peer: Option<PeatPeer>)
      requires Valid()
      modifies manager, graph
      ensures Valid() && State() == Mesh.OnBleDiscovered(old(State()), identifier, name, rssi, meshId, nowMs)
      ensures match old(State()).manager.OnDiscovered(identifier, name, rssi, meshId, nowMs).1
        case None => peer == None
        case Some((id, _)) => id in State().manager.peers && peer == Some(State().manager.peers[id])
    {
      var found := manager.OnDiscovered(identifier, name, rssi, meshId, nowMs);
      if found.None? {
        return None;
      }
      var id := found.value.0;
      graph.OnDiscovered(id, identifier, name, meshId, rssi, nowMs);
      peer := Some(manager.peers[id]);
    }

    method OnBleConnected(identifier: string, nowMs: u64) returns (found: Option<NodeId>)
      requires Valid()
      modifies manager, graph
      ensures Valid() && State() == Mesh.OnBleConnected(old(State()), identifier, nowMs)
      ensures found == NodeOf(old(State()), identifier)
    {
      found := manager.OnConnected(identifier, nowMs);
      if found.None? {
        return;
      }
      graph.OnConnected(found.value, nowMs);
    }

    method OnBleDisconnected(identifier: string, reason: DisconnectReason, nowMs: u64) returns (found: Option<NodeId>)
      requires Valid()
      modifies manager, graph
      ensures Valid() && State() == Mesh.OnBleDisconnected(old(State()), identifier, reason, nowMs)
      ensures found == NodeOf(old(State()), identifier)
    {
      found := manager.OnDisconnected(identifier);
      if found.None? {
        return;
      }
      graph.OnDisconnected(found.value, reason, nowMs);
      graph.RemoveViaPeer(found.value);
    }

    method OnPeerDisconnected(id: NodeId, reason: DisconnectReason, nowMs: u64)
      requires Valid()
      modifies manager, graph
      ensures Valid() && State() == Mesh.OnPeerDisconnected(old(State()), id, reason, nowMs)
    {
      var found := manager.OnDisconnectedByNodeId(id);
      if found {
        graph.OnDisconnected(id, reason, nowMs);
        graph.RemoveViaPeer(id);
      }
    }

    method OnIncomingConnection(identifier: string, id: NodeId, nowMs: u64) returns (isNew: bool)
      requires Valid()
      modifies manager, graph
      ensures Valid() && State() == Mesh.OnIncomingConnection(old(State()), identifier, id, nowMs)
      ensures isNew <==> id in State().manager.peers && id !in old(State()).manager.peers
    {
      isNew := manager.OnIncomingConnection(identifier, id, nowMs);
      if isNew {
        graph.OnDiscovered(id, identifier, None, Some(config.meshId), -50, nowMs);
      }
      graph.OnConnected(id, nowMs);
    }

    // ---------- Receiving documents ----------

    method ProcessDocumentData(source: NodeId, data: seq<u8>, nowMs: u64, relayData: Option<seq<u8>>,
                               origin: Option<NodeId>, hopCount: u8)
      returns (out: Option<DataReceived>)
      requires Valid()
      modifies manager
      ensures Valid() && State() == OnKnownDocument(old(State()), source, openDocument(data), nowMs)
      ensures out == Reported(openDocument(data), config.nodeId, relayData, origin, hopCount)
    {
      var author := openDocument(data);
      if author.None? {
        return None;
      }
      if author.value == config.nodeId {
        return None;
      }
      manager.RecordSync(source, nowMs);
      out := Some(DataReceived(author.value, relayData, origin, hopCount));
    }

    method ProcessIncomingDocument(identifier: string, data: seq<u8>, nowMs: u64, relayData: Option<seq<u8>>,
                                   origin: Option<NodeId>, hopCount: u8)
      returns (out: Option<DataReceived>)
      requires Valid()
      modifies manager, graph
      ensures Valid()
      ensures out == Reported(openLegacy(data), config.nodeId, relayData, origin, hopCount)
      ensures origin.None? ==> State() == OnDirectDocument(old(State()), identifier, openLegacy(data), nowMs)
      ensures origin.Some? ==>
        State() == OnKnownDocument(old(State()), openLegacy(data).GetOr(config.nodeId), openLegacy(data), nowMs)
    {
      var author := openLegacy(data);
      if author.None? {
        return None;
      }
      if author.value == config.nodeId {
        return None;
      }
      manager.RecordSync(author.value, nowMs);
      if origin.None? {
        var isNew := manager.OnIncomingConnection(identifier, author.value, nowMs);
        if isNew {
          graph.OnDiscovered(author.value, identifier, None, Some(config.meshId), -50, nowMs);
        }
        graph.OnConnected(author.value, nowMs);
      }
      out := Some(DataReceived(author.value, relayData, origin, hopCount));
    }

    // ---------- Receiving relay envelopes ----------

    // The decision, for callers that forward envelopes themselves. A decision means the message
    // was new; it is relayed on only with hops left and relaying enabled.
    method ProcessRelayEnvelope(data: seq<u8>, source: NodeId, nowMs: u64)
      returns (decision: Option<RelayDecision>, ghost isNew: bool)
      requires Valid()
      modifies graph, seen
      ensures Valid()
      ensures match RelayEnvelope.Decode(data)
        case None => decision == None && State() == old(State())
        case Some(env) =>
          && SeenCache.Marks(old(State()).seen, env.messageId, env.originNode, nowMs, State().seen, isNew)
          && State() == Learn(old(State()), FromNode(source), env, nowMs).(seen := State().seen)
          && (decision.Some? <==> isNew)
          && (isNew ==>
                && decision.value == RelayDecision(env.payload, env.originNode, env.hopCount,
                                                   env.CanRelay() && config.enableRelay, Forwarded(State(), env))
                && (decision.value.relayEnvelope.Some? <==> decision.value.shouldRelay)
                && (decision.value.shouldRelay <==> config.enableRelay && env.hopCount < env.maxHops)
                && (decision.value.relayEnvelope.Some? ==>
                      decision.value.relayEnvelope.value == env.(hopCount := env.hopCount + 1)))
    {
      isNew := false;
      var parsed := RelayEnvelope.Decode(data);
      if parsed.None? {
        return None, false;
      }
      var env := parsed.value;
      if env.originNode != source && env.originNode != config.nodeId {
        var _ := graph.OnRelayReceived(source, env.originNode, env.hopCount, nowMs);
      }
      var unseen := seen.MarkSeen(env.messageId, env.originNode, nowMs);
      isNew := unseen;
      if !unseen {
        decision := None;
        return;
      }
      if !env.CanRelay() {
        decision := Some(RelayDecision(env.payload, env.originNode, env.hopCount, false, None));
        return;
      }
      var shouldRelay := config.enableRelay;
      var relayEnvelope := if shouldRelay then env.Relay() else None;
      decision := Some(RelayDecision(env.payload, env.originNode, env.hopCount, shouldRelay, relayEnvelope));
    }

    // An envelope from a known node.
    method HandleRelayEnvelope(source: NodeId, data: seq<u8>, nowMs: u64)
      returns (out: Option<DataReceived>, ghost isNew: bool, ghost result: Option<Received>)
      requires Valid()
      modifies manager, graph, seen
      ensures Valid()
      ensures HandledOnWire(old(State()), FromNode(source), data, openDocument, nowMs, State(), out, isNew, result)
    {
      result := None;
      var decision;
      decision, isNew := ProcessRelayEnvelope(data, source, nowMs);
      if decision.None? {
        return None, isNew, None;
      }
      var relayData := if decision.value.shouldRelay && decision.value.relayEnvelope.Some?
                       then Some(decision.value.relayEnvelope.value.Encode()) else None;
      ghost var env := RelayEnvelope.Decode(data).value;
      out := ProcessDocumentData(source, decision.value.payload, nowMs, relayData,
                                 Some(decision.value.origin), decision.value.hopCount);
      result := if out.None? then None
                else Some(Received(out.value.source, Forwarded(State(), env), Some(env.originNode), env.hopCount));
    }

    // An envelope from a connection identified by its address.
    method HandleRelayEnvelopeWithIdentifier(source: NodeId, identifier: string, data: seq<u8>, nowMs: u64)
      returns (out: Option<DataReceived>, ghost isNew: bool, ghost result: Option<Received>)
      requires Valid()
      requires identifier in manager.identifierMap && manager.identifierMap[identifier] == source
      modifies manager, seen
      ensures Valid()
      ensures HandledOnWire(old(State()), FromIdentifier(identifier), data, openDocument, nowMs, State(), out, isNew, result)
    {
      result, isNew := None, false;
      var parsed := RelayEnvelope.Decode(data);
      if parsed.None? {
        return None, false, None;
      }
      var env := parsed.value;
      var unseen := seen.MarkSeen(env.messageId, env.originNode, nowMs);
      isNew := unseen;
      if !unseen {
        return None, isNew, None;
      }
      var relayData := None;
      if env.CanRelay() && config.enableRelay {
        relayData := Some(env.Relay().value.Encode());
      }
      out := ProcessDocumentData(source, env.payload, nowMs, relayData, Some(env.originNode), env.hopCount);
      result := if out.None? then None
                else Some(Received(out.value.source, Forwarded(State(), env), Some(env.originNode), env.hopCount));
    }

    // If the sender is known, it may have taught us a route.
    method LearnFrom(identifier: string, env: RelayEnvelope, nowMs: u64)
      requires Valid()
      modifies graph
      ensures Valid() && State() == Learn(old(State()), FromAnyone(identifier), env, nowMs)
    {
      if identifier in manager.identifierMap {
        var source := manager.identifierMap[identifier];
        if env.originNode != source && env.originNode != config.nodeId {
          var _ := graph.OnRelayReceived(source, env.originNode, env.hopCount, nowMs);
        }
      }
    }

    // An envelope from a connection that may not be mapped to a node.
    method HandleRelayEnvelopeWithIncoming(identifier: string, data: seq<u8>, nowMs: u64)
      returns (out: Option<DataReceived>, ghost isNew: bool, ghost result: Option<Received>)
      requires Valid()
      modifies manager, graph, seen
      ensures Valid()
      ensures HandledOnWire(old(State()), FromAnyone(identifier), data, openLegacy, nowMs, State(), out, isNew, result)
    {
      result, isNew := None, false;
      var parsed := RelayEnvelope.Decode(data);
      if parsed.None? {
        return None, false, None;
      }
      var env := parsed.value;
      LearnFrom(identifier, env, nowMs);
      var unseen := seen.MarkSeen(env.messageId, env.originNode, nowMs);
      isNew := unseen;
      if !unseen {
        return None, isNew, None;
      }
      var relayData := None;
      if env.CanRelay() && config.enableRelay {
        relayData := Some(env.Relay().value.Encode());
      }
      out := ProcessIncomingDocument(identifier, env.payload, nowMs, relayData, Some(env.originNode), env.hopCount);
      result := if out.None? then None
                else Some(Received(out.value.source, Forwarded(State(), env), Some(env.originNode), env.hopCount));
    }

    // ---------- Receive entry points ----------

    method OnBleDataReceived(identifier: string, data: seq<u8>, nowMs: u64)
      returns (out: Option<DataReceived>, ghost isNew: bool, ghost result: Option<Received>)
      requires Valid()
      modifies manager, graph, seen
      ensures Valid()
      ensures identifier !in old(manager.identifierMap) ==> out == None && State() == old(State())
      ensures IsSecret(data) ==> out == None && State() == old(State())
      ensures identifier in old(manager.identifierMap) && !IsSecret(data) && !IsRelay(data) ==>
        && State() == OnKnownDocument(old(State()), old(manager.identifierMap)[identifier], openDocument(data), nowMs)
        && out == Reported(openDocument(data), config.nodeId, None, None, 0)
      ensures identifier in old(manager.identifierMap) && IsRelay(data) ==>
        HandledOnWire(old(State()), FromIdentifier(identifier), data, openDocument, nowMs, State(), out, isNew, result)
    {
      isNew, result := false, None;
      if identifier !in manager.identifierMap {
        return None, false, None;
      }
      var source := manager.identifierMap[identifier];
      if |data| >= 2 {
        if data[0] == KEY_EXCHANGE_MARKER || data[0] == PEER_E2EE_MARKER {
          return None, false, None;
        }
        if data[0] == RELAY_ENVELOPE_MARKER {
          out, isNew, result := HandleRelayEnvelopeWithIdentifier(source, identifier, data, nowMs);
          return;
        }
      }
      out := ProcessDocumentData(source, data, nowMs, None, None, 0);
    }

    method OnBleDataReceivedFromNode(source: NodeId, data: seq<u8>, nowMs: u64)
      returns (out: Option<DataReceived>, ghost isNew: bool, ghost result: Option<Received>)
      requires Valid()
      modifies manager, graph, seen
      ensures Valid()
      ensures IsSecret(data) ==> out == None && State() == old(State())
      ensures !IsSecret(data) && !IsRelay(data) ==>
        && State() == OnKnownDocument(old(State()), source, openDocument(data), nowMs)
        && out == Reported(openDocument(data), config.nodeId, None, None, 0)
      ensures IsRelay(data) ==>
        HandledOnWire(old(State()), FromNode(source), data, openDocument, nowMs, State(), out, isNew, result)
    {
      isNew, result := false, None;
      if |data| >= 2 {
        if data[0] == KEY_EXCHANGE_MARKER || data[0] == PEER_E2EE_MARKER {
          return None, false, None;
        }
        if data[0] == RELAY_ENVELOPE_MARKER {
          out, isNew, result := HandleRelayEnvelope(source, data, nowMs);
          return;
        }
      }
      out := ProcessDocumentData(source, data, nowMs, None, None, 0);
    }

    method OnBleData(identifier: string, data: seq<u8>, nowMs: u64)
      returns (out: Option<DataReceived>, ghost isNew: bool, ghost result: Option<Received>)
      requires Valid()
      modifies manager, graph, seen
      ensures Valid()
      ensures IsRelay(data) ==>
        HandledOnWire(old(State()), FromAnyone(identifier), data, openLegacy, nowMs, State(), out, isNew, result)
      ensures IsSecret(data) ==> out == None && State() == old(State())
      ensures !IsSecret(data) && !IsRelay(data) ==>
        && State() == OnDirectDocument(old(State()), identifier, openLegacy(data), nowMs)
        && out == Reported(openLegacy(data), config.nodeId, None, None, 0)
    {
      isNew, result := false, None;
      if |data| >= 2 {
        if data[0] == KEY_EXCHANGE_MARKER || data[0] == PEER_E2EE_MARKER {
          return None, false, None;
        }
        if data[0] == RELAY_ENVELOPE_MARKER {
          out, isNew, result := HandleRelayEnvelopeWithIncoming(identifier, data, nowMs);
          return;
        }
      }
      out := ProcessIncomingDocument(identifier, data, nowMs, None, None, 0);
    }

    // ---------- Sending ----------

    method WrapForRelay(id: MessageId, payload: seq<u8>) returns (data: seq<u8>)
      requires Valid()
      ensures data == Broadcast(id, config.nodeId, config.maxRelayHops, payload).Encode()
      ensures |payload| < U32_RANGE ==>
        RelayEnvelope.Decode(data)
        == Some(RelayEnvelope(id, 0, config.maxRelayHops, config.nodeId, RelayFlags(false, true), payload))
    {
      DecodeInvertsEncode(Broadcast(id, config.nodeId, config.maxRelayHops, payload), []);
      assert Broadcast(id, config.nodeId, config.maxRelayHops, payload).Encode() + []
          == Broadcast(id, config.nodeId, config.maxRelayHops, payload).Encode();
      data := RelayEnvelope(id, 0, DEFAULT_MAX_HOPS, config.nodeId, RelayFlags(false, true), payload)
              .(maxHops := config.maxRelayHops).Encode();
    }

    // Filter the connected peers, then ask the gossip strategy; seeds are what its generator reads.
    method GetRelayTargets(exclude: Option<NodeId>, seeds: seq<u64>) returns (targets: seq<PeatPeer>)
      requires Valid() && ManagerKept(State().manager)
      requires 3 * config.Fanout() < U64_RANGE && |seeds| == 3 * config.Fanout()
      ensures RelayTargets(State(), exclude, NodeIds(targets))
      ensures forall i :: 0 <= i < |targets| ==>
        targets[i].nodeId in State().manager.peers && targets[i] == State().manager.peers[targets[i].nodeId]
    {
      var connected := manager.GetConnectedPeers();
      ListedPeers(State().manager, State().manager.ConnectedIds());
      targets := SelectTargets(connected, exclude, config.Fanout(), seeds);
      TargetsServe(State(), exclude, connected, targets);
    }

    // ---------- The tick ----------

    method Tick(nowMs: u64) returns (broadcast: bool, lost: seq<NodeId>)
      requires Valid()
      modifies this, manager, graph
      ensures Valid() && State() == Ticked(old(State()), nowMs)
      ensures broadcast == Broadcasts(old(State()), nowMs)
      ensures broadcast <==>
        && TimerFires(nowMs, old(lastSyncMs), config.syncIntervalMs)
        && exists id :: id in State().manager.peers && State().manager.peers[id].isConnected
      ensures lost == LostEvents(old(State()), nowMs)
    {
      lost := Maintain(nowMs);
      Elapsed32Truncated(nowMs, lastSyncMs);
      broadcast := false;
      if (nowMs % U32_RANGE - lastSyncMs) % U32_RANGE >= config.syncIntervalMs % U32_RANGE {
        lastSyncMs := nowMs % U32_RANGE;
        broadcast := exists id :: id in manager.peers && manager.peers[id].isConnected;
        AnyConnected(manager.State());
      }
    }

    // The cleanup half of the tick.
    method Maintain(nowMs: u64) returns (lost: seq<NodeId>)
      requires Valid()
      modifies `lastCleanupMs, manager, graph
      ensures Valid() && State() == Maintained(old(State()), nowMs)
      ensures lost == LostEvents(old(State()), nowMs)
    {
      lost := [];
      Elapsed32Truncated(nowMs, lastCleanupMs);
      if (nowMs % U32_RANGE - lastCleanupMs) % U32_RANGE >= config.peer.cleanupIntervalMs % U32_RANGE {
        lastCleanupMs := nowMs % U32_RANGE;
        AscendingListing(manager.State().Stale(nowMs));
        var removed := manager.CleanupStale(nowMs);
        var newlyLost := graph.Tick(nowMs);
        var _ := graph.CleanupLost(config.peer.peerTimeoutMs, nowMs);
        lost := ReportLost(removed, newlyLost);
      }
    }
  }

  lemma AnyConnected(m: Manager)
    ensures m.ConnectedIds() != {} <==> exists id :: id in m.peers && m.peers[id].isConnected
  {
    if exists id :: id in m.peers && m.peers[id].isConnected {
      var id :| id in m.peers && m.peers[id].isConnected;
      assert id in m.ConnectedIds();
    }
  }

  // End-to-end encrypted traffic, which this model leaves aside.
  predicate IsSecret(data: seq<u8>) {
    |data| >= 2 && (data[0] == KEY_EXCHANGE_MARKER || data[0] == PEER_E2EE_MARKER)
  }

  predicate IsRelay(data: seq<u8>) {
    |data| >= 2 && data[0] == RELAY_ENVELOPE_MARKER
  }

  // An envelope's bytes handled as module Mesh says, and the report given in bytes.
  ghost predicate HandledOnWire(m: MeshState, entry: Entry, data: seq<u8>, open: seq<u8> -> Option<NodeId>, nowMs: u64,
                                m': MeshState, out: Option<DataReceived>, isNew: bool, result: Option<Received>)
  {
    match RelayEnvelope.Decode(data)
    case None => out == None && m' == m
    case Some(env) => Handles(m, entry, env, open(env.payload), nowMs, m', isNew, result) && out == OnWire(result)
  }

  // Received bytes are sorted by their first one: encoded envelopes are relay traffic and never secret.
  lemma MarkersSort(data: seq<u8>, env: RelayEnvelope)
    ensures IsSecret(data) <==> |data| >= 2 && 0xAF <= data[0] <= 0xB0
    ensures IsRelay(data) <==> |data| >= 2 && data[0] == 0xB1
    ensures IsRelay(env.Encode()) && !IsSecret(env.Encode())
  {
  }

  // What the platform is told of an envelope's bytes: nothing, if they do not decode; else its document,
  // if it is new, opens and is another node's; and bytes to send on exactly when, besides, relaying is enabled and hops are left, which
  // decode to the envelope with one more hop.
  lemma EnvelopeAnswered(m: MeshState, entry: Entry, data: seq<u8>, open: seq<u8> -> Option<NodeId>, nowMs: u64,
                         m': MeshState, out: Option<DataReceived>, isNew: bool, result: Option<Received>)
    requires HandledOnWire(m, entry, data, open, nowMs, m', out, isNew, result)
    ensures RelayEnvelope.Decode(data).None? ==> out == None && m' == m
    ensures RelayEnvelope.Decode(data).Some? ==>
      var env := RelayEnvelope.Decode(data).value;
      var author := open(env.payload);
      && (out.Some? <==> isNew && author.Some? && author.value != m.config.nodeId)
      && (out.Some? ==>
            && author == Some(out.value.source)
            && out.value.origin == Some(env.originNode) && out.value.hopCount == env.hopCount
            && (out.value.relayData.Some? <==> m.config.enableRelay && env.hopCount < env.maxHops)
            && (out.value.relayData.Some? ==>
                  RelayEnvelope.Decode(out.value.relayData.value) == Some(env.(hopCount := env.hopCount + 1))))
  {
    if RelayEnvelope.Decode(data).Some? && RelayEnvelope.Decode(data).value.CanRelay() {
      ForwardedEnvelopeDecodes(data);
    }
  }

  // A document by itself is reported, with its author, exactly when it opens and is another node's.
  lemma DocumentAnswered(author: Option<NodeId>, self: NodeId, relayData: Option<seq<u8>>, origin: Option<NodeId>,
                         hopCount: u8)
    ensures var out := Reported(author, self, relayData, origin, hopCount);
      && (out.Some? <==> author.Some? && author.value != self)
      && (out.Some? ==>
            && author == Some(out.value.source) && out.value.relayData == relayData
            && out.value.origin == origin && out.value.hopCount == hopCount)
  {
  }

  lemma Elapsed32Truncated(nowMs: u64, last: u32)
    ensures Elapsed32(nowMs, last) == (nowMs % U32_RANGE - last) % U32_RANGE
  {
  }

  // Losses the manager has not already reported.
  method ReportLost(removed: seq<NodeId>, newlyLost: seq<NodeId>) returns (events: seq<NodeId>)
    ensures events == removed + NotIn(newlyLost, Elements(removed))
  {
    events := removed;
    for n := 0 to |newlyLost|
      invariant events == removed + NotIn(newlyLost[..n], Elements(removed))
    {
      assert newlyLost[..n + 1][..n] == newlyLost[..n];
      if newlyLost[n] !in removed {
        events := events + [newlyLost[n]];
      }
    }
    assert newlyLost[..|newlyLost|] == newlyLost;
  }

  // Filter out the excluded peer, then let the gossip strategy choose.
  method SelectTargets(connected: seq<PeatPeer>, exclude: Option<NodeId>, fanout: nat, seeds: seq<u64>)
    returns (targets: seq<PeatPeer>)
    requires 1 <= fanout && 3 * fanout < U64_RANGE && |seeds| == 3 * fanout
    ensures |targets| <= fanout
    ensures forall i :: 0 <= i < |targets| ==> targets[i] in connected && exclude != Some(targets[i].nodeId)
    ensures DistinctNodes(connected) ==> DistinctNodes(targets)
    ensures |Candidates(connected, exclude)| <= fanout ==> targets == Candidates(connected, exclude)
    ensures (exists p :: p in connected && exclude != Some(p.nodeId)) ==> targets != []
  {
    var filtered := [];
    for n := 0 to |connected|
      invariant filtered == Candidates(connected[..n], exclude)
    {
      assert connected[..n + 1][..n] == connected[..n];
      if exclude != Some(connected[n].nodeId) {
        filtered := filtered + [connected[n]];
      }
    }
    assert connected[..|connected|] == connected;
    CandidatesExact(connected, exclude);
    if DistinctNodes(connected) {
      CandidatesDistinct(connected, exclude);
    }
    var picks := SelectRandom(|filtered|, fanout, seeds);
    targets := seq(|picks|, i requires 0 <= i < |picks| => filtered[picks[i]]);
    TargetsFollow(filtered, picks, targets);
  }

  lemma ListedPeers(m: Manager, ids: set<NodeId>)
    requires ManagerKept(m) && ids <= m.peers.Keys
    ensures Elements(Ascending(ids)) <= m.peers.Keys
    ensures var list := Listed(m.peers, Ascending(ids));
      && |list| == |ids|
      && DistinctNodes(list)
      && (forall i :: 0 <= i < |list| ==> list[i].nodeId in ids && list[i] == m.peers[list[i].nodeId])
      && (forall id :: id in ids ==> m.peers[id] in list)
  {
    AscendingListing(ids);
    var ks := Ascending(ids);
    var list := Listed(m.peers, ks);
    forall i | 0 <= i < |list| ensures ks[i] in ids {
      assert ks[i] in Elements(ks);
    }
    forall id | id in ids ensures m.peers[id] in list {
      assert id in Elements(ks);
      var i :| 0 <= i < |ks| && ks[i] == id;
      assert list[i] == m.peers[id];
    }
  }

  function NodeIds(peers: seq<PeatPeer>): (ids: seq<NodeId>)
    ensures |ids| == |peers| && forall i :: 0 <= i < |ids| ==> ids[i] == peers[i].nodeId
  {
    seq(|peers|, i requires 0 <= i < |peers| => peers[i].nodeId)
  }

  lemma {:induction false} DistinctCount(ids: seq<NodeId>)
    requires NoDuplicates(ids)
    ensures |Elements(ids)| == |ids|
  {
    if ids != [] {
      var init := ids[..|ids| - 1];
      DistinctCount(init);
      assert Elements(ids) == Elements(init) + {ids[|ids| - 1]};
    }
  }

  // The candidates are the eligible peers, each once.
  lemma CandidatesAreEligible(m: MeshState, exclude: Option<NodeId>, connected: seq<PeatPeer>)
    requires DistinctNodes(connected)
    requires forall p :: p in connected ==> p.nodeId in m.manager.ConnectedIds()
    requires forall id :: id in m.manager.ConnectedIds() ==> exists p :: p in connected && p.nodeId == id
    ensures Elements(NodeIds(Candidates(connected, exclude))) == Eligible(m, exclude)
    ensures |Candidates(connected, exclude)| == |Eligible(m, exclude)|
  {
    CandidatesExact(connected, exclude);
    CandidatesDistinct(connected, exclude);
    var list := Candidates(connected, exclude);
    forall id ensures id in Elements(NodeIds(list)) <==> id in Eligible(m, exclude) {
      IdListed(list, id);
    }
    DistinctCount(NodeIds(list));
  }

  lemma IdListed(list: seq<PeatPeer>, id: NodeId)
    ensures id in Elements(NodeIds(list)) <==> exists p :: p in list && p.nodeId == id
  {
    if p :| p in list && p.nodeId == id {
      var k :| 0 <= k < |list| && list[k] == p;
      assert NodeIds(list)[k] == id;
    }
  }

  // What the selection returns are relay targets.
  lemma TargetsServe(m: MeshState, exclude: Option<NodeId>, connected: seq<PeatPeer>, targets: seq<PeatPeer>)
    requires DistinctNodes(connected) && DistinctNodes(targets) && |targets| <= m.config.Fanout()
    requires forall p :: p in connected ==> p.nodeId in m.manager.ConnectedIds()
    requires forall id :: id in m.manager.ConnectedIds() ==> exists p :: p in connected && p.nodeId == id
    requires forall i :: 0 <= i < |targets| ==> targets[i] in connected && exclude != Some(targets[i].nodeId)
    requires |Candidates(connected, exclude)| <= m.config.Fanout() ==> targets == Candidates(connected, exclude)
    requires (exists p :: p in connected && exclude != Some(p.nodeId)) ==> targets != []
    ensures RelayTargets(m, exclude, NodeIds(targets))
  {
    CandidatesAreEligible(m, exclude, connected);
    if Eligible(m, exclude) != {} {
      var id :| id in Eligible(m, exclude);
      assert exists p :: p in connected && exclude != Some(p.nodeId);
    }
  }

  lemma TargetsFollow(filtered: seq<PeatPeer>, picks: seq<nat>, targets: seq<PeatPeer>)
    requires DistinctPositions(picks, |filtered|) && |targets| == |picks|
    requires forall i :: 0 <= i < |picks| ==> targets[i] == filtered[picks[i]]
    ensures forall i :: 0 <= i < |targets| ==> targets[i] in filtered
    ensures DistinctNodes(filtered) ==> DistinctNodes(targets)
    ensures picks == Positions(|filtered|) ==> targets == filtered
  {
    if DistinctNodes(filtered) {
      forall i, j | 0 <= i < j < |targets| ensures targets[i].nodeId != targets[j].nodeId {
        assert picks[i] != picks[j];
      }
    }
  }
}
