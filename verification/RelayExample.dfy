/** A small network at work: what the theorems about all runs speak of does happen. */
module RelayExample {
  import opened Common
  import opened Relay
  import SeenCache
  import opened Peers
  import opened PeerGraph
  import opened PeerManagement
  import opened Mesh
  import opened MeshRuns
  import opened RelayNetwork

  function ExampleConfig(n: NodeId): (r: MeshConfig) {
    MeshConfig(n, "M", ManagerConfig(45_000, 10_000, 30_000, "M", 8, -80, 30_000), 5_000, true, 7, 2,
               SeenCache.DEFAULT_SEEN_TTL_MS)
  }

  const THREE_NODES: Configs := map[1 := ExampleConfig(1), 2 := ExampleConfig(2), 3 := ExampleConfig(3)]

  function Message(): (r: RelayEnvelope) {
    Broadcast(MessageIdFromContent(1, 1, 0), 1, 7, [])
  }

  function Marked(m: MeshState, env: RelayEnvelope, nowMs: u64): (r: SeenCache.Cache) {
    m.seen.(entries := SeenCache.Record(m.seen.entries, env.messageId, env.originNode, nowMs))
  }

  // Shortly after the start no cleanup is due, and a message not yet known is new.
  lemma FreshMark(m: MeshState, env: RelayEnvelope)
    requires m.seen == SeenCache.Empty(SeenCache.DEFAULT_SEEN_TTL_MS)
    ensures SeenCache.Marks(m.seen, env.messageId, env.originNode, 1, Marked(m, env, 1), true)
  {
    assert !SeenCache.CleanupDue(m.seen, 1);
  }

  function RelayNode(): (r: MeshState) {
    Perform(NewMesh(ExampleConfig(2)), IncomingConnection("c", 3), 1)
  }

  // The middle node takes the message from its origin and hands it on to its one other peer.
  function RelayedBy(m: MeshState): (r: MeshState) {
    m.(seen := Marked(m, Message(), 1), manager := m.manager.RecordSync(1, 1))
  }

  lemma OneTarget(m: MeshState, exclude: Option<NodeId>, id: NodeId)
    requires Eligible(m, exclude) == {id}
    ensures RelayTargets(m, exclude, [id])
  {
    assert Elements([id]) == {id};
  }

  lemma MiddleEligible()
    ensures Eligible(RelayNode(), Some(1)) == {3}
  {
    assert RelayNode().manager.peers.Keys == {3};
  }

  lemma MiddleHandles()
    ensures Handles(RelayNode(), FromNode(1), Message(), Some(1), 1, RelayedBy(RelayNode()), true,
                    Some(Received(1, Message().Relay(), Some(1), 0)))
  {
    FreshMark(RelayNode(), Message());
  }

  lemma MiddleForwards()
    ensures var step := Deliver(0, Packet(Message(), 1, 2), FromNode(1), Some(1), true,
                                Some(Received(1, Message().Relay(), Some(1), 0)), [3]);
      Delivers(RelayNode(), step, 1, RelayedBy(RelayNode()))
  {
    MiddleHandles();
    MiddleEligible();
    HandlingKeepsConnections(RelayNode(), FromNode(1), Message(), Some(1), 1, RelayedBy(RelayNode()), true,
                             Some(Received(1, Message().Relay(), Some(1), 0)), Some(1));
    OneTarget(RelayedBy(RelayNode()), Some(1), 3);
  }

  // The last node, connected to the middle one.
  function LastNode(): (r: MeshState) {
    Perform(NewMesh(ExampleConfig(3)), IncomingConnection("d", 2), 1)
  }

  // It learns the route to the origin and, the document not being the middle node's, has only the
  // middle node to hand the message on to.
  function LearnedBy(m: MeshState, env: RelayEnvelope): (r: MeshState) {
    m.(seen := Marked(m, env, 1), manager := m.manager.RecordSync(2, 1), graph := m.graph.OnRelayReceived(2, 1, 1, 1))
  }

  function TwiceRelayed(): (r: RelayEnvelope) {
    Message().(hopCount := 2)
  }

  lemma LastEligible()
    ensures Eligible(LastNode(), Some(1)) == {2}
  {
    assert LastNode().manager.peers.Keys == {2};
  }

  lemma LastHandles()
    ensures var env := Message().Relay().value;
      Handles(LastNode(), FromNode(2), env, Some(1), 1, LearnedBy(LastNode(), env), true,
              Some(Received(1, Some(TwiceRelayed()), Some(1), 1)))
  {
    FreshMark(LastNode(), Message().Relay().value);
  }

  lemma LastLearns()
    ensures Delivers(LastNode(), Learns(), 1, LearnedBy(LastNode(), Message().Relay().value))
  {
    var env := Message().Relay().value;
    LastHandles();
    LastEligible();
    HandlingKeepsConnections(LastNode(), FromNode(2), env, Some(1), 1, LearnedBy(LastNode(), env), true,
                             Some(Received(1, Some(TwiceRelayed()), Some(1), 1)), Some(1));
    OneTarget(LearnedBy(LastNode(), env), Some(1), 2);
  }

  // The network at each of its moments.
  function StartNodes(): (r: map<NodeId, MeshState>) {
    map n | n in THREE_NODES :: NewMesh(THREE_NODES[n])
  }

  function Meeting(): (r: map<NodeId, MeshState>) {
    StartNodes()[2 := RelayNode()]
  }

  function Met(): (r: map<NodeId, MeshState>) {
    Meeting()[3 := LastNode()]
  }

  function Passed(): (r: map<NodeId, MeshState>) {
    Met()[2 := RelayedBy(RelayNode())]
  }

  function Ended(): (r: map<NodeId, MeshState>) {
    Passed()[3 := LearnedBy(LastNode(), Message().Relay().value)]
  }

  function Outgoing(): (r: Packet) {
    Packet(Message(), 1, 2)
  }

  function Onwards(): (r: Packet) {
    Packet(Message().Relay().value, 2, 3)
  }

  function Forwards(): (r: Step) {
    Deliver(0, Outgoing(), FromNode(1), Some(1), true, Some(Received(1, Message().Relay(), Some(1), 0)), [3])
  }

  function Learns(): (r: Step) {
    Deliver(0, Onwards(), FromNode(2), Some(1), true, Some(Received(1, Some(TwiceRelayed()), Some(1), 1)), [2])
  }

  // The copy that goes back to where it came from.
  function Returned(): (r: Packet) {
    Packet(TwiceRelayed(), 3, 2)
  }

  lemma Meets()
    ensures Steps(Net(StartNodes(), []), AtNode(2, IncomingConnection("c", 3)), 1, Net(Meeting(), []))
    ensures Steps(Net(Meeting(), []), AtNode(3, IncomingConnection("d", 2)), 1, Net(Met(), []))
  {
  }

  lemma Sends()
    ensures Steps(Net(Met(), []), Originate(Message(), [2]), 1, Net(Met(), [Outgoing()]))
  {
    assert Copies(Message(), 1, [2]) == [Outgoing()];
  }

  // The only packet in flight is delivered.
  lemma OnlyPacketDelivered(nodes: map<NodeId, MeshState>, step: Step, m': MeshState)
    requires step.Deliver? && step.index == 0 && step.packet.dst in nodes
    requires Delivers(nodes[step.packet.dst], step, 1, m')
    ensures Steps(Net(nodes, [step.packet]), step, 1, Net(nodes[step.packet.dst := m'], Onward(step)))
  {
    assert Without([step.packet], 0) + Onward(step) == Onward(step);
  }

  lemma Relays()
    ensures Steps(Net(Met(), [Outgoing()]), Forwards(), 1, Net(Passed(), [Onwards()]))
  {
    MiddleForwards();
    OnlyPacketDelivered(Met(), Forwards(), RelayedBy(RelayNode()));
    assert Onward(Forwards()) == [Onwards()];
  }

  lemma Arrives()
    ensures Steps(Net(Passed(), [Onwards()]), Learns(), 1, Net(Ended(), [Returned()]))
  {
    LastLearns();
    OnlyPacketDelivered(Passed(), Learns(), LearnedBy(LastNode(), Message().Relay().value));
    assert Onward(Learns()) == [Returned()];
  }

  lemma EndsKnowing()
    ensures 3 in Ended()
    ensures var indirect := Ended()[3].graph.indirect;
      1 in indirect && indirect[1].viaPeers == map[2 := 1] && indirect[1].minHops == 1
  {
  }

  // Extending a run by a step that may happen at the same moment.
  function Next(run: NetRun, step: Step, after: Net): (next: NetRun) {
    NetRun.Then(run, step, 1, after)
  }

  lemma NextHappens(run: NetRun, step: Step, after: Net)
    requires run.Happens(THREE_NODES) && run.Clock() <= 1 && Steps(run.State(THREE_NODES), step, 1, after)
    ensures Next(run, step, after).Happens(THREE_NODES)
    ensures Next(run, step, after).State(THREE_NODES) == after && Next(run, step, after).Clock() == 1
  {
  }

  lemma Begins()
    ensures Quiet.State(THREE_NODES) == Net(StartNodes(), [])
  {
  }

  // In this run node 3 comes to know node 1 one relay away, through node 2, and sends the message
  // back to node 2, from which it has just received it.
  lemma ARouteIsLearned() returns (run: NetRun)
    ensures run.Happens(THREE_NODES)
    ensures 3 in run.State(THREE_NODES).nodes
    ensures var indirect := run.State(THREE_NODES).nodes[3].graph.indirect;
      1 in indirect && indirect[1].viaPeers == map[2 := 1] && indirect[1].minHops == 1
    ensures run.Then? && run.step.Deliver? && run.step.packet.src == 2 && run.step.packet.dst == 3
    ensures run.State(THREE_NODES).flight == [Packet(TwiceRelayed(), 3, 2)]
  {
    Begins();
    Meets();
    NextHappens(Quiet, AtNode(2, IncomingConnection("c", 3)), Net(Meeting(), []));
    run := Next(Quiet, AtNode(2, IncomingConnection("c", 3)), Net(Meeting(), []));
    NextHappens(run, AtNode(3, IncomingConnection("d", 2)), Net(Met(), []));
    run := Next(run, AtNode(3, IncomingConnection("d", 2)), Net(Met(), []));
    Sends();
    NextHappens(run, Originate(Message(), [2]), Net(Met(), [Outgoing()]));
    run := Next(run, Originate(Message(), [2]), Net(Met(), [Outgoing()]));
    Relays();
    NextHappens(run, Forwards(), Net(Passed(), [Onwards()]));
    run := Next(run, Forwards(), Net(Passed(), [Onwards()]));
    Arrives();
    NextHappens(run, Learns(), Net(Ended(), [Returned()]));
    run := Next(run, Learns(), Net(Ended(), [Returned()]));
    EndsKnowing();
  }
}
