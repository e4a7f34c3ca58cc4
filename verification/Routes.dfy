/** Learned routes are sound in every run of honest nodes: each one stands for a chain of
    deliveries that really happened. */
module Routes {
  import opened Common
  import opened Relay
  import SeenCache
  import opened PeerGraph
  import opened GraphRuns
  import opened PeerManagement
  import opened Mesh
  import opened MeshRuns
  import opened NodeHistories
  import opened RelayNetwork
  import opened Flooding

  // The packets delivered in a run.
  function Delivered(run: NetRun): (r: set<Packet>) {
    match run
    case Quiet => {}
    case Then(before, step, _, _) =>
      if step.Deliver? then Delivered(before) + {step.packet} else Delivered(before)
  }

  // The envelope as it was one hop earlier.
  function Earlier(env: RelayEnvelope): (r: RelayEnvelope)
    requires env.hopCount > 0
  {
    env.(hopCount := env.hopCount - 1)
  }

  // A chain of exactly hopCount delivered packets brought this envelope from its origin to the node.
  ghost predicate Chained(log: set<Packet>, env: RelayEnvelope, node: NodeId)
    decreases env.hopCount
  {
    if env.hopCount == 0 then node == env.originNode
    else exists prev :: Packet(Earlier(env), prev, node) in log && Chained(log, Earlier(env), prev)
  }

  // A chain of k links, each of which carried a delivered packet.
  ghost predicate Linked(log: set<Packet>, from: NodeId, to: NodeId, k: nat)
    decreases k
  {
    if k == 0 then from == to
    else exists p: Packet :: p in log && p.dst == to && Linked(log, from, p.src, k - 1)
  }

  // Node n knows origin at h hops via a peer because that peer delivered it an envelope of the
  // origin that had come to the peer by a chain of h relays.
  ghost predicate RouteHappened(log: set<Packet>, n: NodeId, origin: NodeId, via: NodeId, h: u8) {
    origin != via && exists env: RelayEnvelope ::
      && Packet(env, via, n) in log
      && env.originNode == origin && env.hopCount == h
      && Chained(log, env, via)
  }

  ghost predicate RoutesHappened(log: set<Packet>, n: NodeId, indirect: IndirectPeers) {
    forall o, v :: o in indirect && v in indirect[o].viaPeers ==>
      RouteHappened(log, n, o, v, indirect[o].viaPeers[v])
  }

  // ---------- A longer history keeps what was true of a shorter one ----------

  lemma {:induction false} ChainedLater(log: set<Packet>, log': set<Packet>, env: RelayEnvelope, node: NodeId)
    requires log <= log' && Chained(log, env, node)
    ensures Chained(log', env, node)
    decreases env.hopCount
  {
    if env.hopCount > 0 {
      var prev :| Packet(Earlier(env), prev, node) in log && Chained(log, Earlier(env), prev);
      ChainedLater(log, log', Earlier(env), prev);
    }
  }

  lemma RouteLater(log: set<Packet>, log': set<Packet>, n: NodeId, origin: NodeId, via: NodeId, h: u8)
    requires log <= log' && RouteHappened(log, n, origin, via, h)
    ensures RouteHappened(log', n, origin, via, h)
  {
    var env: RelayEnvelope :| Packet(env, via, n) in log && env.originNode == origin && env.hopCount == h && Chained(log, env, via);
    ChainedLater(log, log', env, via);
  }

  lemma RoutesLater(log: set<Packet>, log': set<Packet>, n: NodeId, indirect: IndirectPeers)
    requires log <= log' && RoutesHappened(log, n, indirect)
    ensures RoutesHappened(log', n, indirect)
  {
    forall o, v | o in indirect && v in indirect[o].viaPeers
      ensures RouteHappened(log', n, o, v, indirect[o].viaPeers[v])
    {
      RouteLater(log, log', n, o, v, indirect[o].viaPeers[v]);
    }
  }

  lemma {:induction false} ChainLinks(log: set<Packet>, env: RelayEnvelope, node: NodeId)
    requires Chained(log, env, node)
    ensures Linked(log, env.originNode, node, env.hopCount)
    decreases env.hopCount
  {
    if env.hopCount > 0 {
      var prev :| Packet(Earlier(env), prev, node) in log && Chained(log, Earlier(env), prev);
      ChainLinks(log, Earlier(env), prev);
      var p := Packet(Earlier(env), prev, node);
      assert p in log && p.dst == node && Linked(log, env.originNode, p.src, env.hopCount - 1);
    }
  }

  // ---------- Every packet in flight has come by such a chain ----------

  lemma {:induction false} FlightChained(configs: Configs, run: NetRun)
    requires run.Happens(configs)
    ensures forall i :: 0 <= i < |run.State(configs).flight| ==>
      var p := run.State(configs).flight[i]; Chained(Delivered(run), p.env, p.src)
  {
    if run.Then? {
      FlightChained(configs, run.before);
      var net := run.before.State(configs);
      var log, log' := Delivered(run.before), Delivered(run);
      forall i | 0 <= i < |run.after.flight|
        ensures var p := run.after.flight[i]; Chained(log', p.env, p.src)
      {
        var p := run.after.flight[i];
        if p in net.flight {
          ChainedLater(log, log', p.env, p.src);
        } else if run.step.Deliver? {
          var carried := run.step.packet;
          OnwardCopies(net.nodes[carried.dst], run.step, run.nowMs, run.after.nodes[carried.dst]);
          assert p in Onward(run.step);
          ChainedLater(log, log', carried.env, carried.src);
          assert Earlier(p.env) == carried.env && p.src == carried.dst;
          assert Packet(Earlier(p.env), carried.src, p.src) in log';
        }
      }
    }
  }

  // ---------- Every learned route stands for a chain ----------

  // Some calls drop routes; none but a relayed envelope adds one.
  ghost predicate NoNewRoutes(before: IndirectPeers, after: IndirectPeers) {
    && (forall o :: o in after ==> o in before)
    && (forall o, v :: o in after && v in after[o].viaPeers ==>
          v in before[o].viaPeers && after[o].viaPeers[v] == before[o].viaPeers[v])
  }

  lemma SeveredAddsNoRoute(g: Graph, id: NodeId, reason: DisconnectReason, nowMs: u64)
    ensures NoNewRoutes(g.indirect, Severed(g, id, reason, nowMs).indirect)
  {
  }

  lemma PerformAddsNoRoute(m: MeshState, call: LocalCall, nowMs: u64)
    ensures NoNewRoutes(m.graph.indirect, Perform(m, call, nowMs).graph.indirect)
  {
    match call
    case BleDisconnected(identifier, reason) =>
      if identifier in m.manager.identifiers {
        SeveredAddsNoRoute(m.graph, m.manager.identifiers[identifier], reason, nowMs);
      }
    case PeerDisconnected(id, reason) => SeveredAddsNoRoute(m.graph, id, reason, nowMs);
    case CleanupIndirectPeers =>
    case _ => assert Perform(m, call, nowMs).graph.indirect == m.graph.indirect;
  }

  lemma RoutesSubset(log: set<Packet>, n: NodeId, before: IndirectPeers, after: IndirectPeers)
    requires RoutesHappened(log, n, before) && NoNewRoutes(before, after)
    ensures RoutesHappened(log, n, after)
  {
    forall o, v | o in after && v in after[o].viaPeers
      ensures RouteHappened(log, n, o, v, after[o].viaPeers[v])
    {
      assert o in before && v in before[o].viaPeers;
    }
  }

  // An envelope adds at most the route it came by.
  lemma LearnedRoute(log: set<Packet>, n: NodeId, g: Graph, via: NodeId, origin: NodeId, h: u8, nowMs: u64)
    requires RoutesHappened(log, n, g.indirect) && RouteHappened(log, n, origin, via, h)
    ensures RoutesHappened(log, n, g.OnRelayReceived(via, origin, h, nowMs).indirect)
  {
  }

  lemma DeliveryRoutes(log: set<Packet>, n: NodeId, m: MeshState, step: Step, nowMs: u64, m': MeshState)
    requires step.Deliver? && Delivers(m, step, nowMs, m')
    requires RoutesHappened(log, n, m.graph.indirect)
    requires step.packet in log && step.packet.dst == n && Chained(log, step.packet.env, step.packet.src)
    ensures RoutesHappened(log, n, m'.graph.indirect)
  {
    var p := step.packet;
    var source := SourceOf(m, step.entry);
    if source.Some? && p.env.originNode != p.src {
      assert Packet(p.env, p.src, n) == p;
      assert RouteHappened(log, n, p.env.originNode, p.src, p.env.hopCount);
      LearnedRoute(log, n, m.graph, p.src, p.env.originNode, p.env.hopCount, nowMs);
    }
  }

  lemma {:induction false} EveryRouteHappened(configs: Configs, run: NetRun, n: NodeId)
    requires run.Happens(configs) && n in configs
    ensures n in run.State(configs).nodes
    ensures RoutesHappened(Delivered(run), n, run.State(configs).nodes[n].graph.indirect)
  {
    if run.Then? {
      EveryRouteHappened(configs, run.before, n);
      var net := run.before.State(configs);
      NodeStep(net, run.step, run.nowMs, run.after, n);
      var m := net.nodes[n];
      RoutesLater(Delivered(run.before), Delivered(run), n, m.graph.indirect);
      if run.step.AtNode? && run.step.node == n {
        PerformAddsNoRoute(m, run.step.call, run.nowMs);
        RoutesSubset(Delivered(run), n, m.graph.indirect, run.after.nodes[n].graph.indirect);
      } else if run.step.Deliver? && run.step.packet.dst == n {
        FlightChained(configs, run.before);
        ChainedLater(Delivered(run.before), Delivered(run), run.step.packet.env, run.step.packet.src);
        DeliveryRoutes(Delivered(run), n, m, run.step, run.nowMs, run.after.nodes[n]);
      }
    }
  }

  // ---------- Every delivered route is listed ----------

  // In every run of the network the routes a node lists are exactly those it was taught and that no
  // disconnection of the neighbour or late cleanup has undone since.
  lemma ListedExactly(configs: Configs, run: NetRun, n: NodeId, origin: NodeId, via: NodeId)
    requires run.Happens(configs) && n in configs
    ensures n in run.State(configs).nodes
    ensures Listing(run.State(configs).nodes[n].graph.indirect, origin, via)
         == RouteTo(configs[n], View(configs, run, n), origin, via)
  {
    ViewHappens(configs, run, n);
    RoutesExactly(configs[n], View(configs, run, n), origin, via);
  }

  // In particular a packet just delivered, with its sender known on a path that learns, and its origin a
  // third node at most three relays away and no direct peer, is listed.
  lemma DeliveryListed(configs: Configs, run: NetRun)
    requires run.Happens(configs) && run.Then? && run.step.Deliver?
    requires var n, env := run.step.packet.dst, run.step.packet.env;
      && n in configs && n in run.before.State(configs).nodes
      && var m := run.before.State(configs).nodes[n];
         && SourceOf(m, run.step.entry).Some? && !run.step.entry.FromIdentifier?
         && env.originNode != run.step.packet.src && env.originNode != m.config.nodeId
         && env.hopCount <= 3 && env.originNode !in m.graph.peers
    ensures var n, env := run.step.packet.dst, run.step.packet.env;
      && n in run.after.nodes
      && Listing(run.after.nodes[n].graph.indirect, env.originNode, run.step.packet.src) == Some(env.hopCount)
      && run.after.nodes[n].graph.indirect[env.originNode].lastSeenMs == run.nowMs
  {
    var n, env := run.step.packet.dst, run.step.packet.env;
    ListedExactly(configs, run, n, env.originNode, run.step.packet.src);
    ViewHappens(configs, run, n);
    ViewHappens(configs, run.before, n);
    RoutesExactly(configs[n], View(configs, run, n), env.originNode, run.step.packet.src);
  }

  // ---------- What a node may conclude from its routes ----------

  lemma RouteLength(log: set<Packet>, n: NodeId, origin: NodeId, via: NodeId, h: u8)
    requires RouteHappened(log, n, origin, via, h)
    ensures h >= 1
    ensures Linked(log, origin, n, h + 1)
  {
    var env: RelayEnvelope :| Packet(env, via, n) in log && env.originNode == origin && env.hopCount == h && Chained(log, env, via);
    ChainLinks(log, env, via);
    var p := Packet(env, via, n);
    assert p in log && p.dst == n && Linked(log, origin, p.src, h);
  }

  lemma ShortestRoute(log: set<Packet>, n: NodeId, indirect: IndirectPeers, o: NodeId)
    requires RoutesHappened(log, n, indirect) && o in indirect && RoutesKept(indirect[o])
    ensures 1 <= indirect[o].minHops <= MAX_TRACKED_DEGREE
    ensures Linked(log, o, n, indirect[o].minHops + 1)
  {
    var v :| v in indirect[o].viaPeers && indirect[o].viaPeers[v] == indirect[o].minHops;
    RouteLength(log, n, o, v, indirect[o].minHops);
  }

  // Every indirect peer is another node truly one to three relays away: a chain of minHops + 1
  // deliveries links it to us.
  lemma IndirectPeersReachUs(configs: Configs, run: NetRun, n: NodeId, o: NodeId)
    requires run.Happens(configs) && n in configs && configs[n].nodeId == n
    ensures n in run.State(configs).nodes
    ensures o in run.State(configs).nodes[n].graph.indirect ==>
      var peer := run.State(configs).nodes[n].graph.indirect[o];
      && 1 <= peer.minHops <= MAX_TRACKED_DEGREE
      && o != n
      && Linked(Delivered(run), o, n, peer.minHops + 1)
  {
    EveryRouteHappened(configs, run, n);
    EveryNodeKept(configs, run, n);
    ConfigsStay(configs, run, n);
    var g := run.State(configs).nodes[n].graph;
    if o in g.indirect {
      ShortestRoute(Delivered(run), n, g.indirect, o);
    }
  }

  // So the counts by hops add up to the number of indirect peers.
  lemma HopCountsComplete(configs: Configs, run: NetRun, n: NodeId)
    requires run.Happens(configs) && n in configs
    ensures n in run.State(configs).nodes
    ensures var g := run.State(configs).nodes[n].graph;
      |g.AtHops(1)| + |g.AtHops(2)| + |g.AtHops(3)| == |g.indirect|
  {
    EveryRouteHappened(configs, run, n);
    EveryNodeKept(configs, run, n);
    var g := run.State(configs).nodes[n].graph;
    forall o | o in g.indirect ensures 1 <= g.indirect[o].minHops <= 3 {
      ShortestRoute(Delivered(run), n, g.indirect, o);
    }
    IndirectTotal(g);
  }
}
