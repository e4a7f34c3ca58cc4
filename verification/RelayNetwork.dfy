/** A network of mesh nodes exchanging relay envelopes. Envelopes in flight are delivered in any
    order or lost; between deliveries a node may do anything its local interface allows. A
    delivered envelope that yields relay data is sent on to the relay targets that exclude the
    reported source, as the platform contract asks. */
module RelayNetwork {
  import opened Common
  import opened Relay
  import opened Mesh
  import opened MeshRuns

  datatype Packet = Packet(env: RelayEnvelope, src: NodeId, dst: NodeId)

  datatype Net = Net(nodes: map<NodeId, MeshState>, flight: seq<Packet>)

  type Configs = map<NodeId, MeshConfig>

  // Each step names what it moved: the new envelope, or the packet taken out of flight.
  datatype Step =
    | Originate(env: RelayEnvelope, targets: seq<NodeId>)
    | Deliver(index: nat, packet: Packet, entry: Entry, author: Option<NodeId>,
              isNew: bool, result: Option<Received>, targets: seq<NodeId>)
    | Lose(index: nat, packet: Packet)
    | AtNode(node: NodeId, call: LocalCall)
  {
    // The envelope a delivery hands to the platform for forwarding.
    function Forwarding(): (r: Option<RelayEnvelope>) {
      if Deliver? && result.Some? then result.value.relay else None
    }
  }

  function Copies(env: RelayEnvelope, src: NodeId, targets: seq<NodeId>): (copies: seq<Packet>)
    ensures |copies| == |targets| && forall i :: 0 <= i < |targets| ==> copies[i] == Packet(env, src, targets[i])
  {
    seq(|targets|, i requires 0 <= i < |targets| => Packet(env, src, targets[i]))
  }

  function Without<T>(s: seq<T>, i: nat): (r: seq<T>)
    requires i < |s|
  {
    s[..i] + s[i + 1..]
  }

  // The connection a packet comes in on names its sender, or nobody.
  predicate Honest(m: MeshState, entry: Entry, sender: NodeId) {
    SourceOf(m, entry).None? || SourceOf(m, entry) == Some(sender)
  }

  // The packets a delivery adds to those in flight.
  function Onward(step: Step): (r: seq<Packet>)
    requires step.Deliver?
  {
    match step.Forwarding()
    case None => []
    case Some(next) => Copies(next, step.packet.dst, step.targets)
  }

  ghost predicate Delivers(m: MeshState, step: Step, nowMs: u64, m': MeshState)
    requires step.Deliver?
  {
    && Honest(m, step.entry, step.packet.src)
    && Handles(m, step.entry, step.packet.env, step.author, nowMs, m', step.isNew, step.result)
    && (if step.Forwarding().Some? then RelayTargets(m', Some(step.result.value.source), step.targets)
        else step.targets == [])
  }

  ghost predicate Steps(net: Net, step: Step, nowMs: u64, net': Net) {
    match step
    case Originate(env, targets) =>
      && env.originNode in net.nodes
      && env == Broadcast(env.messageId, env.originNode, net.nodes[env.originNode].config.maxRelayHops, env.payload)
      && net' == net.(flight := net.flight + Copies(env, env.originNode, targets))
    case Deliver(index, packet, _, _, _, _, _) =>
      && index < |net.flight| && net.flight[index] == packet
      && packet.dst in net.nodes && packet.dst in net'.nodes
      && Delivers(net.nodes[packet.dst], step, nowMs, net'.nodes[packet.dst])
      && net'.nodes == net.nodes[packet.dst := net'.nodes[packet.dst]]
      && net'.flight == Without(net.flight, index) + Onward(step)
    case Lose(index, packet) =>
      && index < |net.flight| && net.flight[index] == packet
      && net' == net.(flight := Without(net.flight, index))
    case AtNode(node, call) =>
      && node in net.nodes
      && net' == net.(nodes := net.nodes[node := Perform(net.nodes[node], call, nowMs)])
  }

  // A run of the network: its steps, each with its time and the network after it.
  datatype NetRun = Quiet | Then(before: NetRun, step: Step, nowMs: u64, after: Net)
  {
    function State(configs: Configs): (r: Net) {
      if Quiet? then Net(map n | n in configs :: NewMesh(configs[n]), []) else after
    }

    function Clock(): (r: u64) {
      if Quiet? then 0 else nowMs
    }

    ghost predicate Happens(configs: Configs) {
      Then? ==>
        && before.Happens(configs)
        && 0 < nowMs && before.Clock() <= nowMs
        && Steps(before.State(configs), step, nowMs, after)
    }
  }

  // ---------- What every node keeps ----------

  // What one step does at one node: nothing, a local call, or an envelope handled.
  lemma NodeStep(net: Net, step: Step, nowMs: u64, net': Net, n: NodeId)
    requires Steps(net, step, nowMs, net') && n in net.nodes
    ensures net'.nodes.Keys == net.nodes.Keys
    ensures step.AtNode? && step.node == n ==> Acts(net.nodes[n], Local(step.call), nowMs, net'.nodes[n])
    ensures step.Deliver? && step.packet.dst == n ==>
      Acts(net.nodes[n], Envelope(step.entry, step.packet.env, step.author, step.isNew, step.result), nowMs, net'.nodes[n])
    ensures !(step.AtNode? && step.node == n) && !(step.Deliver? && step.packet.dst == n) ==> net'.nodes[n] == net.nodes[n]
  {
  }

  lemma ActKeepsConfig(m: MeshState, act: Act, nowMs: u64, m': MeshState)
    requires Acts(m, act, nowMs, m')
    ensures m'.config == m.config && m'.seen.ttlMs == m.seen.ttlMs
  {
  }

  lemma {:induction false} ConfigsStay(configs: Configs, run: NetRun, n: NodeId)
    requires run.Happens(configs)
    ensures run.State(configs).nodes.Keys == configs.Keys
    ensures n in configs ==>
      && run.State(configs).nodes[n].config == configs[n]
      && run.State(configs).nodes[n].seen.ttlMs == configs[n].seenTtlMs
  {
    match run
    case Quiet =>
    case Then(before, step, now, after) =>
      ConfigsStay(configs, before, n);
      var net := before.State(configs);
      if n in configs {
        NodeStep(net, step, now, after, n);
        if step.AtNode? && step.node == n {
          ActKeepsConfig(net.nodes[n], Local(step.call), now, after.nodes[n]);
        } else if step.Deliver? && step.packet.dst == n {
          ActKeepsConfig(net.nodes[n], Envelope(step.entry, step.packet.env, step.author, step.isNew, step.result), now, after.nodes[n]);
        }
      }
  }

  // Every node of every reachable network keeps its components in agreement.
  lemma {:induction false} EveryNodeKept(configs: Configs, run: NetRun, n: NodeId)
    requires run.Happens(configs) && n in configs
    ensures n in run.State(configs).nodes && MeshKept(run.State(configs).nodes[n], run.Clock())
  {
    match run
    case Quiet => NewMeshKept(configs[n]);
    case Then(before, step, now, after) =>
      EveryNodeKept(configs, before, n);
      var net := before.State(configs);
      NodeStep(net, step, now, after, n);
      if step.AtNode? && step.node == n {
        ActKeeps(net.nodes[n], Local(step.call), before.Clock(), now, after.nodes[n]);
      } else if step.Deliver? && step.packet.dst == n {
        ActKeeps(net.nodes[n], Envelope(step.entry, step.packet.env, step.author, step.isNew, step.result),
                 before.Clock(), now, after.nodes[n]);
      } else {
        KeptLater(net.nodes[n], before.Clock(), now);
      }
  }

  lemma KeptLater(m: MeshState, clock: u64, later: u64)
    requires MeshKept(m, clock) && clock <= later
    ensures MeshKept(m, later)
  {
  }

  // ---------- One node's view ----------

  // What a run of the network is to one of its nodes.
  function View(configs: Configs, run: NetRun, n: NodeId): (view: NodeRun) {
    match run
    case Quiet => Started
    case Then(before, step, now, after) =>
      var earlier := View(configs, before, n);
      if n !in after.nodes then earlier
      else match step
        case AtNode(node, call) => if node == n then NodeRun.Then(earlier, Local(call), now, after.nodes[n]) else earlier
        case Deliver(_, packet, entry, author, isNew, result, _) =>
          if packet.dst == n
          then NodeRun.Then(earlier, Envelope(entry, packet.env, author, isNew, result), now, after.nodes[n])
          else earlier
        case _ => earlier
  }

  lemma {:induction false} ViewHappens(configs: Configs, run: NetRun, n: NodeId)
    requires run.Happens(configs) && n in configs
    ensures n in run.State(configs).nodes
    ensures View(configs, run, n).Happens(configs[n]) && View(configs, run, n).Clock() <= run.Clock()
    ensures View(configs, run, n).State(configs[n]) == run.State(configs).nodes[n]
  {
    if run.Then? {
      ViewHappens(configs, run.before, n);
      NodeStep(run.before.State(configs), run.step, run.nowMs, run.after, n);
    }
  }

  // ---------- What is sent on ----------

  // A delivery is reported exactly when the message is new and its document opens and is another
  // node's; the report names author, origin and hops. It is sent on exactly when, besides, relaying is
  // enabled and hops are left; then with one more hop.
  lemma ForwardsExactly(m: MeshState, step: Step, nowMs: u64, m': MeshState)
    requires step.Deliver? && Delivers(m, step, nowMs, m')
    ensures var env := step.packet.env;
      && (step.result.Some? <==> step.isNew && step.author.Some? && step.author.value != m.config.nodeId)
      && (step.result.Some? ==>
            && step.author == Some(step.result.value.source)
            && step.result.value.origin == Some(env.originNode) && step.result.value.hopCount == env.hopCount)
      && (step.Forwarding().Some? <==> step.result.Some? && m.config.enableRelay && env.hopCount < env.maxHops)
      && (step.Forwarding().Some? ==> step.Forwarding().value == env.(hopCount := env.hopCount + 1))
  {
  }

  // A node with relaying off sends nothing on: whatever is in flight from it, it has itself originated,
  // and no delivery to it adds a packet.
  lemma {:induction false} RelayOffSilent(configs: Configs, run: NetRun, n: NodeId)
    requires run.Happens(configs) && n in configs && !configs[n].enableRelay
    ensures forall i :: 0 <= i < |run.State(configs).flight| && run.State(configs).flight[i].src == n ==>
      run.State(configs).flight[i].env.originNode == n && run.State(configs).flight[i].env.hopCount == 0
    ensures run.Then? && run.step.Deliver? && run.step.packet.dst == n ==> Onward(run.step) == []
  {
    if run.Then? {
      RelayOffSilent(configs, run.before, n);
      ConfigsStay(configs, run.before, n);
      var net := run.before.State(configs);
      if run.step.Deliver? {
        ForwardsExactly(net.nodes[run.step.packet.dst], run.step, run.nowMs, run.after.nodes[run.step.packet.dst]);
      }
    }
  }

  // ---------- Who may be sent to ----------

  // Some selection the gossip strategy may make contains this peer exactly if it is eligible.
  lemma MayBeChosen(m: MeshState, exclude: Option<NodeId>, peer: NodeId)
    ensures (exists ts :: RelayTargets(m, exclude, ts) && peer in ts) <==> peer in Eligible(m, exclude)
  {
    if peer in Eligible(m, exclude) {
      var all := Ascending(Eligible(m, exclude));
      AscendingListing(Eligible(m, exclude));
      if |Eligible(m, exclude)| <= m.config.Fanout() {
        assert forall i :: 0 <= i < |all| ==> all[i] in Elements(all);
        assert RelayTargets(m, exclude, all);
        assert peer in Elements(all);
      } else {
        assert RelayTargets(m, exclude, [peer]);
      }
    }
  }

  // Handling an envelope leaves the connections and the configuration alone.
  lemma HandlingKeepsConnections(m: MeshState, entry: Entry, env: RelayEnvelope, author: Option<NodeId>, nowMs: u64,
                                 m': MeshState, isNew: bool, result: Option<Received>, exclude: Option<NodeId>)
    requires Handles(m, entry, env, author, nowMs, m', isNew, result)
    ensures m'.config == m.config && Eligible(m', exclude) == Eligible(m, exclude)
  {
    assert m'.manager.ConnectedIds() == m.manager.ConnectedIds();
  }

  // Relay targets are documented to leave out the sender, but the node they leave out is the author
  // of the document. So a delivery may be sent back to the neighbour it came from exactly when that
  // neighbour is not the author and is connected; and it must be, when no more peers than the
  // fanout are eligible. Both can be told before the delivery.
  lemma BackToSender(m: MeshState, step: Step, nowMs: u64, m': MeshState)
    requires step.Deliver? && Delivers(m, step, nowMs, m') && step.Forwarding().Some?
    ensures (exists ts :: RelayTargets(m', step.author, ts) && step.packet.src in ts)
       <==> step.author != Some(step.packet.src) && step.packet.src in m.manager.ConnectedIds()
    ensures step.author == Some(step.result.value.source) && RelayTargets(m', step.author, step.targets)
    ensures |Eligible(m, step.author)| <= m.config.Fanout() ==>
      (step.packet.src in step.targets
       <==> step.author != Some(step.packet.src) && step.packet.src in m.manager.ConnectedIds())
  {
    HandlingKeepsConnections(m, step.entry, step.packet.env, step.author, nowMs, m', step.isNew, step.result, step.author);
    MayBeChosen(m', step.author, step.packet.src);
    if |Eligible(m, step.author)| <= m.config.Fanout() {
      assert Elements(step.targets) == Eligible(m, step.author);
      assert step.packet.src in step.targets <==> step.packet.src in Elements(step.targets);
    }
  }

  // In particular never when the neighbour wrote the document it sends.
  lemma AuthorNotAnswered(m: MeshState, step: Step, nowMs: u64, m': MeshState)
    requires step.Deliver? && Delivers(m, step, nowMs, m') && step.author == Some(step.packet.src)
    ensures step.packet.src !in step.targets
  {
  }
}
