/** Counter replication between synchronisers over a network that loses, repeats and reorders
    documents: never an over-count, and agreement once every node has heard every other. */
module CounterNetwork {
  import opened Common
  import opened GCounters
  import opened Documents
  import opened DocumentSyncs
  import opened Tables

  // What a node may do on its own.
  datatype LocalOp<P> =
    | Increment
    | SendEvent(p: P)
    | UpdatePeripheral(p: P)
    | StartEmergency(timestamp: u64, knownPeers: set<NodeId>, p: P)
    | AckEmergency(p: P)
    | ClearEmergency(p: P)

  function Locally<P>(s: SyncState<P>, op: LocalOp<P>): (r: SyncState<P>) {
    match op
    case Increment => s.Incremented()
    case SendEvent(p) => s.(peripheral := p).Incremented()
    case UpdatePeripheral(p) => s.(peripheral := p).Bumped()
    case StartEmergency(timestamp, knownPeers, p) => s.StartedEmergency(timestamp, knownPeers, p)
    case AckEmergency(p) => s.AckedEmergency(p)
    case ClearEmergency(p) => s.ClearedEmergency(p)
  }

  // Does the operation count as an event of its node?
  predicate IsCounted<P>(s: SyncState<P>, op: LocalOp<P>) {
    match op
    case Increment => true
    case SendEvent(_) => true
    case StartEmergency(_, _, _) => true
    case AckEmergency(_) => s.emergency.Some? && !s.emergency.value.HasAcked(s.nodeId)
    case _ => false
  }

  // Does the operation change anything?
  predicate IsEffective<P>(s: SyncState<P>, op: LocalOp<P>) {
    match op
    case AckEmergency(_) => IsCounted(s, op)
    case ClearEmergency(_) => s.emergency.Some?
    case _ => true
  }

  // What an operation does: the version moves and the given peripheral is taken exactly if it has an
  // effect; an emergency started is ours, of that time, and lists those known; an acknowledgement adds
  // ours and nothing else; clearing leaves none; nothing else touches the emergency.
  lemma LocallyTells<P>(s: SyncState<P>, op: LocalOp<P>)
    ensures var after := Locally(s, op);
      && (after.version != s.version <==> IsEffective(s, op))
      && after.peripheral == (if op.Increment? || !IsEffective(s, op) then s.peripheral else op.p)
      && match op
         case StartEmergency(timestamp, knownPeers, _) =>
           && after.emergency.Some? && var e := after.emergency.value;
              && e.sourceNode == s.nodeId && e.timestamp == timestamp && e.acks.Keys == knownPeers + {s.nodeId}
              && forall id :: e.HasAcked(id) <==> id == s.nodeId
         case AckEmergency(_) =>
           && (after.emergency.Some? <==> s.emergency.Some?)
           && (s.emergency.Some? ==>
                 && after.emergency.value.SameEvent(s.emergency.value)
                 && forall id :: after.emergency.value.HasAcked(id) <==> s.emergency.value.HasAcked(id) || id == s.nodeId)
         case ClearEmergency(_) => after.emergency == None
         case _ => after.emergency == s.emergency
  {
    VersionSteps(s.version);
  }

  // sent holds the state behind every document ever sent; any of them may arrive anywhere, at any
  // later time, any number of times, or never.
  datatype SyncNet<P> = SyncNet(nodes: map<NodeId, SyncState<P>>, sent: seq<SyncState<P>>)

  datatype SyncStep<P> =
    | Event(node: NodeId, op: LocalOp<P>)
    | Send(node: NodeId)
    | Receive(node: NodeId, sender: SyncState<P>)

  // What the receiver becomes when the sender's document arrives, given receiver and sender.
  type Delivery<!P> = (SyncState<P>, SyncState<P>) -> SyncState<P>

  // The document is built, sent as bytes, decoded and merged.
  function OverTheWire<P>(codec: PeripheralCodec<P>): (r: Delivery<P>) {
    (receiver: SyncState<P>, sender: SyncState<P>) => receiver.Merged(codec, sender.Build(codec)).0
  }

  // All that matters of a delivery here: it merges a part of the sender's counts, all but node
  // zero's while they can be read, and takes nothing from the node's own documents.
  ghost predicate MergesCounts<P(!new)>(deliver: Delivery<P>) {
    forall s: SyncState<P>, sender: SyncState<P> ::
      && deliver(s, sender).nodeId == s.nodeId
      && MergedPart(s.counter, sender.counter, deliver(s, sender).counter)
      && (sender.nodeId != s.nodeId && Readable(sender.counter) ==>
            deliver(s, sender).counter == GCounters.Merge(s.counter, sender.counter - {0}))
  }

  // Documents with more entries than this do not decode.
  predicate Readable(c: Counts) {
    |c| <= MAX_COUNTER_ENTRIES
  }

  lemma WireMergesCounts<P(!new)>(codec: PeripheralCodec<P>)
    ensures MergesCounts(OverTheWire(codec))
  {
    forall s: SyncState<P>, sender: SyncState<P>
      ensures var after := OverTheWire(codec)(s, sender);
        && after.nodeId == s.nodeId
        && MergedPart(s.counter, sender.counter, after.counter)
        && (sender.nodeId != s.nodeId && Readable(sender.counter) ==>
              after.counter == GCounters.Merge(s.counter, sender.counter - {0}))
    {
      BuiltMerges(sender, s, codec);
    }
  }

  ghost predicate Steps<P>(deliver: Delivery<P>, net: SyncNet<P>, step: SyncStep<P>, net': SyncNet<P>) {
    && step.node in net.nodes
    && match step
       case Event(n, op) => net' == net.(nodes := net.nodes[n := Locally(net.nodes[n], op)])
       case Send(n) => net' == net.(sent := net.sent + [net.nodes[n]])
       case Receive(n, sender) =>
         sender in net.sent && net' == net.(nodes := net.nodes[n := deliver(net.nodes[n], sender)])
  }

  // Is the step an event that counts?
  predicate CountedStep<P>(net: SyncNet<P>, step: SyncStep<P>) {
    step.Event? && step.node in net.nodes && IsCounted(net.nodes[step.node], step.op)
  }

  datatype SyncRun<P> = Fresh | Then(before: SyncRun<P>, step: SyncStep<P>, after: SyncNet<P>)
  {
    function State(start: map<NodeId, P>): (r: SyncNet<P>) {
      if Fresh? then SyncNet(map n | n in start :: NewSync(n, start[n]), []) else after
    }

  }

  ghost predicate Happens<P>(deliver: Delivery<P>, start: map<NodeId, P>, run: SyncRun<P>) {
    run.Then? ==> Happens(deliver, start, run.before) && Steps(deliver, run.before.State(start), run.step, run.after)
  }

  // ---------- Counting events ----------

  function NextTally<P>(tally: map<NodeId, nat>, net: SyncNet<P>, step: SyncStep<P>): (r: map<NodeId, nat>) {
    if CountedStep(net, step) && step.node in tally then tally[step.node := tally[step.node] + 1] else tally
  }

  // The events of each node so far.
  function Tally<P>(start: map<NodeId, P>, run: SyncRun<P>): (r: map<NodeId, nat>) {
    match run
    case Fresh => map n | n in start :: 0
    case Then(before, step, _) => NextTally(Tally(start, before), before.State(start), step)
  }

  function AllEvents<P>(start: map<NodeId, P>, run: SyncRun<P>): (r: nat) {
    match run
    case Fresh => 0
    case Then(before, step, _) => AllEvents(start, before) + if CountedStep(before.State(start), step) then 1 else 0
  }

  function Saturated(n: nat): (r: u64) {
    if n > U64_MAX then U64_MAX else n
  }

  // ---------- Nothing is over-counted ----------

  // No more of any node's events than there were.
  ghost predicate Bounded(c: Counts, tally: map<NodeId, nat>) {
    forall id :: id in c ==> id in tally && 0 < c[id] <= tally[id]
  }

  // A node's state: its own count is its number of events, as far as 64 bits go, and it knows
  // nothing of node zero unless it is node zero.
  ghost predicate NodeKept<P>(tally: map<NodeId, nat>, n: NodeId, s: SyncState<P>) {
    && n in tally && s.nodeId == n
    && Bounded(s.counter, tally)
    && NodeCount(s.counter, n) == Saturated(tally[n])
    && (n != 0 ==> 0 !in s.counter)
  }

  ghost predicate NetKept<P>(tally: map<NodeId, nat>, net: SyncNet<P>) {
    && net.nodes.Keys == tally.Keys
    && (forall n :: n in net.nodes ==> NodeKept(tally, n, net.nodes[n]))
    && (forall s :: s in net.sent ==> s.nodeId in tally && Bounded(s.counter, tally))
  }

  lemma BoundedLater(c: Counts, tally: map<NodeId, nat>, n: NodeId)
    requires Bounded(c, tally) && n in tally
    ensures Bounded(c, tally[n := tally[n] + 1])
  {
  }

  lemma MergeBounded(a: Counts, b: Counts, tally: map<NodeId, nat>)
    requires Bounded(a, tally) && Bounded(b, tally)
    ensures Bounded(GCounters.Merge(a, b), tally)
  {
  }

  lemma LocallyCounts<P>(s: SyncState<P>, op: LocalOp<P>)
    ensures Locally(s, op).nodeId == s.nodeId
    ensures Locally(s, op).counter == if IsCounted(s, op) then GCounters.Increment(s.counter, s.nodeId, 1) else s.counter
  {
  }

  lemma IncrementKept<P>(tally: map<NodeId, nat>, n: NodeId, s: SyncState<P>, s': SyncState<P>)
    requires NodeKept(tally, n, s)
    requires s'.nodeId == n && s'.counter == GCounters.Increment(s.counter, n, 1)
    ensures NodeKept(tally[n := tally[n] + 1], n, s')
  {
  }

  lemma EventKept<P>(tally: map<NodeId, nat>, n: NodeId, s: SyncState<P>, counted: bool, s': SyncState<P>)
    requires NodeKept(tally, n, s) && s'.nodeId == n
    requires s'.counter == if counted then GCounters.Increment(s.counter, n, 1) else s.counter
    ensures NodeKept(if counted then tally[n := tally[n] + 1] else tally, n, s')
  {
    if counted {
      IncrementKept(tally, n, s, s');
    }
  }

  // Replacing the state of one node, the tally growing with it.
  lemma ReplaceKeeps<P>(tally: map<NodeId, nat>, tally': map<NodeId, nat>, net: SyncNet<P>, n: NodeId, s': SyncState<P>)
    requires NetKept(tally, net) && n in net.nodes
    requires tally' == tally || tally' == tally[n := tally[n] + 1]
    requires NodeKept(tally', n, s')
    ensures NetKept(tally', net.(nodes := net.nodes[n := s']))
  {
    if tally' != tally {
      forall m | m in net.nodes && m != n ensures NodeKept(tally', m, net.nodes[m]) {
        BoundedLater(net.nodes[m].counter, tally, n);
      }
      forall x | x in net.sent ensures Bounded(x.counter, tally') {
        BoundedLater(x.counter, tally, n);
      }
    }
  }

  lemma TallyNext<P>(tally: map<NodeId, nat>, net: SyncNet<P>, n: NodeId, op: LocalOp<P>)
    requires n in tally && n in net.nodes
    ensures NextTally(tally, net, Event(n, op))
         == if IsCounted(net.nodes[n], op) then tally[n := tally[n] + 1] else tally
  {
  }

  lemma EventKeeps<P>(tally: map<NodeId, nat>, net: SyncNet<P>, n: NodeId, s: SyncState<P>, counted: bool,
                      s': SyncState<P>)
    requires NetKept(tally, net) && n in net.nodes && s == net.nodes[n] && s'.nodeId == n
    requires s'.counter == if counted then GCounters.Increment(s.counter, n, 1) else s.counter
    ensures n in tally
    ensures NetKept(if counted then tally[n := tally[n] + 1] else tally, net.(nodes := net.nodes[n := s']))
  {
    assert NodeKept(tally, n, s);
    EventKept(tally, n, s, counted, s');
    ReplaceKeeps(tally, if counted then tally[n := tally[n] + 1] else tally, net, n, s');
  }

  lemma PartBounded(part: Counts, whole: Counts, tally: map<NodeId, nat>)
    requires PartOf(part, whole) && Bounded(whole, tally)
    ensures Bounded(part, tally)
  {
  }

  lemma MergedKept<P>(tally: map<NodeId, nat>, n: NodeId, s: SyncState<P>, part: Counts, s': SyncState<P>)
    requires NodeKept(tally, n, s) && Bounded(part, tally) && 0 !in part
    requires s'.nodeId == n && s'.counter == GCounters.Merge(s.counter, part)
    ensures NodeKept(tally, n, s')
  {
    MergeBounded(s.counter, part, tally);
    MergedCount(s.counter, part, n);
    MergedCount(s.counter, part, 0);
  }

  lemma ReceiveKeeps<P(!new)>(deliver: Delivery<P>, tally: map<NodeId, nat>, n: NodeId, s: SyncState<P>,
                              sender: SyncState<P>)
    requires MergesCounts(deliver) && NodeKept(tally, n, s) && Bounded(sender.counter, tally)
    ensures NodeKept(tally, n, deliver(s, sender))
  {
    var part: Counts :| PartOf(part, sender.counter) && deliver(s, sender).counter == GCounters.Merge(s.counter, part);
    PartBounded(part, sender.counter, tally);
    MergedKept(tally, n, s, part, deliver(s, sender));
  }

  lemma ReceiveKeepsNet<P(!new)>(deliver: Delivery<P>, tally: map<NodeId, nat>, net: SyncNet<P>, n: NodeId,
                                 sender: SyncState<P>)
    requires MergesCounts(deliver) && NetKept(tally, net) && n in net.nodes && sender in net.sent
    ensures NetKept(tally, net.(nodes := net.nodes[n := deliver(net.nodes[n], sender)]))
  {
    assert NodeKept(tally, n, net.nodes[n]);
    ReceiveKeeps(deliver, tally, n, net.nodes[n], sender);
    ReplaceKeeps(tally, tally, net, n, deliver(net.nodes[n], sender));
  }

  lemma SendKeeps<P>(tally: map<NodeId, nat>, net: SyncNet<P>, n: NodeId)
    requires NetKept(tally, net) && n in net.nodes
    ensures NetKept(tally, net.(sent := net.sent + [net.nodes[n]]))
  {
    assert NodeKept(tally, n, net.nodes[n]);
  }

  lemma StepKeeps<P(!new)>(deliver: Delivery<P>, tally: map<NodeId, nat>, net: SyncNet<P>, step: SyncStep<P>,
                           net': SyncNet<P>)
    requires MergesCounts(deliver) && NetKept(tally, net) && Steps(deliver, net, step, net')
    ensures NetKept(NextTally(tally, net, step), net')
  {
    match step
    case Event(n, op) =>
      var s := net.nodes[n];
      assert NodeKept(tally, n, s);
      LocallyCounts(s, op);
      TallyNext(tally, net, n, op);
      EventKeeps(tally, net, n, s, IsCounted(s, op), Locally(s, op));
    case Send(n) =>
      SendKeeps(tally, net, n);
      assert NextTally(tally, net, step) == tally;
    case Receive(n, sender) =>
      ReceiveKeepsNet(deliver, tally, net, n, sender);
      assert NextTally(tally, net, step) == tally;
  }

  lemma {:induction false} NamesStay<P>(deliver: Delivery<P>, start: map<NodeId, P>, run: SyncRun<P>)
    requires Happens(deliver, start, run)
    ensures Tally(start, run).Keys == start.Keys && run.State(start).nodes.Keys == start.Keys
  {
    if run.Then? {
      NamesStay(deliver, start, run.before);
    }
  }

  // In every run, whatever the size of the network, no node counts events that did not happen, each
  // node's own count is the number of its events, as far as 64 bits go, and none but node zero
  // itself ever learns of node zero's events.
  lemma {:induction false} NeverOverCounts<P(!new)>(deliver: Delivery<P>, start: map<NodeId, P>, run: SyncRun<P>)
    requires MergesCounts(deliver) && Happens(deliver, start, run)
    ensures NetKept(Tally(start, run), run.State(start))
  {
    match run
    case Fresh =>
    case Then(before, step, after) =>
      NeverOverCounts(deliver, start, before);
      StepKeeps(deliver, Tally(start, before), before.State(start), step, after);
  }

  // So no node knows of more events of another than that node itself.
  lemma OwnCountLeads<P(!new)>(deliver: Delivery<P>, start: map<NodeId, P>, run: SyncRun<P>, n: NodeId, j: NodeId)
    requires MergesCounts(deliver) && Happens(deliver, start, run)
    requires n in start && j in start
    ensures n in run.State(start).nodes && j in run.State(start).nodes
    ensures NodeCount(run.State(start).nodes[n].counter, j) <= NodeCount(run.State(start).nodes[j].counter, j)
  {
    NamesStay(deliver, start, run);
    NeverOverCounts(deliver, start, run);
    assert NodeKept(Tally(start, run), n, run.State(start).nodes[n]);
    assert NodeKept(Tally(start, run), j, run.State(start).nodes[j]);
  }

  // In a network of at most 256 nodes every document can be read.
  lemma SmallNetworkReadable<P(!new)>(deliver: Delivery<P>, start: map<NodeId, P>, run: SyncRun<P>, sender: SyncState<P>)
    requires MergesCounts(deliver) && Happens(deliver, start, run) && |start| <= MAX_COUNTER_ENTRIES
    requires sender in run.State(start).sent
    ensures Readable(sender.counter)
  {
    NamesStay(deliver, start, run);
    NeverOverCounts(deliver, start, run);
    assert sender.counter.Keys <= start.Keys;
    assert |start.Keys - sender.counter.Keys| == |start.Keys| - |sender.counter.Keys|;
    assert |sender.counter| == |sender.counter.Keys| && |start| == |start.Keys|;
  }

  // ---------- Agreement ----------

  ghost function NextSince<P>(net: SyncNet<P>, step: SyncStep<P>, since: set<SyncState<P>>): (r: set<SyncState<P>>) {
    if CountedStep(net, step) then {}
    else if step.Send? && step.node in net.nodes then since + {net.nodes[step.node]}
    else since
  }

  // What a received document teaches, if it was sent since the last event and can be read.
  ghost function News<P>(n: NodeId, sender: SyncState<P>, since: set<SyncState<P>>): (r: set<(NodeId, NodeId)>) {
    if sender in since && Readable(sender.counter) then {(n, sender.nodeId)} else {}
  }

  ghost function NextHeard<P>(net: SyncNet<P>, step: SyncStep<P>, since: set<SyncState<P>>, heard: set<(NodeId,
                              NodeId)>)
    : (r: set<(NodeId, NodeId)>)
  {
    if CountedStep(net, step) then {}
    else if step.Receive? then heard + News(step.node, step.sender, since)
    else heard
  }

  // The states behind the documents sent since the last event that counts.
  ghost function SentSince<P>(start: map<NodeId, P>, run: SyncRun<P>): (r: set<SyncState<P>>) {
    if run.Fresh? then {} else NextSince(run.before.State(start), run.step, SentSince(start, run.before))
  }

  // The pairs of which the first has since received such a document of the second.
  ghost function HeardSince<P>(start: map<NodeId, P>, run: SyncRun<P>): (r: set<(NodeId, NodeId)>) {
    if run.Fresh? then {}
    else NextHeard(run.before.State(start), run.step, SentSince(start, run.before), HeardSince(start, run.before))
  }

  // The counter has all of j's events.
  predicate Current(c: Counts, tally: map<NodeId, nat>, j: NodeId) {
    j in tally && NodeCount(c, j) == Saturated(tally[j])
  }

  // Whoever has been heard is known in full; node zero's events are never told.
  ghost predicate HeardKept<P>(tally: map<NodeId, nat>, net: SyncNet<P>, since: set<SyncState<P>>,
                               heard: set<(NodeId, NodeId)>) {
    && (forall s :: s in since ==> s in net.sent && Current(s.counter, tally, s.nodeId))
    && (forall n, j :: (n, j) in heard && j != 0 ==> n in net.nodes && Current(net.nodes[n].counter, tally, j))
  }

  // Merging keeps what is current, and brings what the other part has in full.
  lemma MergedCurrent(a: Counts, b: Counts, tally: map<NodeId, nat>, j: NodeId)
    requires Bounded(a, tally) && Bounded(b, tally)
    requires Current(a, tally, j) || Current(b, tally, j)
    ensures Current(GCounters.Merge(a, b), tally, j)
  {
    MergedCount(a, b, j);
  }

  lemma DeliveryCurrent<P(!new)>(deliver: Delivery<P>, tally: map<NodeId, nat>, n: NodeId, s: SyncState<P>,
                                 sender: SyncState<P>, j: NodeId)
    requires MergesCounts(deliver) && NodeKept(tally, n, s) && Bounded(sender.counter, tally)
    requires Current(s.counter, tally, j)
    ensures Current(deliver(s, sender).counter, tally, j)
  {
    var part: Counts :| PartOf(part, sender.counter) && deliver(s, sender).counter == GCounters.Merge(s.counter, part);
    PartBounded(part, sender.counter, tally);
    MergedCurrent(s.counter, part, tally, j);
  }

  lemma DeliveryTells<P(!new)>(deliver: Delivery<P>, tally: map<NodeId, nat>, n: NodeId, s: SyncState<P>,
                               sender: SyncState<P>)
    requires MergesCounts(deliver) && NodeKept(tally, n, s) && Bounded(sender.counter, tally)
    requires Readable(sender.counter) && Current(sender.counter, tally, sender.nodeId) && sender.nodeId != 0
    ensures Current(deliver(s, sender).counter, tally, sender.nodeId)
  {
    if sender.nodeId == n {
      DeliveryCurrent(deliver, tally, n, s, sender, n);
    } else {
      MergedCurrent(s.counter, sender.counter - {0}, tally, sender.nodeId);
    }
  }

  // Replacing one node's state by one that has all it had, and the heard node's events.
  lemma ReplaceHeard<P>(tally: map<NodeId, nat>, net: SyncNet<P>, n: NodeId, s': SyncState<P>,
                        since: set<SyncState<P>>, heard: set<(NodeId, NodeId)>, news: set<(NodeId, NodeId)>)
    requires HeardKept(tally, net, since, heard) && n in net.nodes
    requires forall j :: Current(net.nodes[n].counter, tally, j) ==> Current(s'.counter, tally, j)
    requires forall m, j :: (m, j) in news && j != 0 ==> m == n && Current(s'.counter, tally, j)
    ensures HeardKept(tally, net.(nodes := net.nodes[n := s']), since, heard + news)
  {
  }

  lemma ReceivedCurrent<P(!new)>(deliver: Delivery<P>, tally: map<NodeId, nat>, net: SyncNet<P>, n: NodeId,
                                 sender: SyncState<P>, since: set<SyncState<P>>, heard: set<(NodeId, NodeId)>)
    requires MergesCounts(deliver) && NetKept(tally, net) && HeardKept(tally, net, since, heard)
    requires n in net.nodes && sender in net.sent
    ensures HeardKept(tally, net.(nodes := net.nodes[n := deliver(net.nodes[n], sender)]),
                      since, heard + News(n, sender, since))
  {
    var s := net.nodes[n];
    assert NodeKept(tally, n, s);
    forall j | Current(s.counter, tally, j) ensures Current(deliver(s, sender).counter, tally, j) {
      DeliveryCurrent(deliver, tally, n, s, sender, j);
    }
    if sender in since && Readable(sender.counter) && sender.nodeId != 0 {
      DeliveryTells(deliver, tally, n, s, sender);
    }
    ReplaceHeard(tally, net, n, deliver(s, sender), since, heard, News(n, sender, since));
  }

  lemma EventHeard<P>(tally: map<NodeId, nat>, net: SyncNet<P>, n: NodeId, op: LocalOp<P>,
                      since: set<SyncState<P>>, heard: set<(NodeId, NodeId)>)
    requires HeardKept(tally, net, since, heard) && n in net.nodes && !IsCounted(net.nodes[n], op)
    ensures HeardKept(tally, net.(nodes := net.nodes[n := Locally(net.nodes[n], op)]), since, heard)
  {
    LocallyCounts(net.nodes[n], op);
  }

  lemma StepHeard<P(!new)>(deliver: Delivery<P>, tally: map<NodeId, nat>, net: SyncNet<P>, step: SyncStep<P>,
                           net': SyncNet<P>, since: set<SyncState<P>>, heard: set<(NodeId, NodeId)>)
    requires MergesCounts(deliver) && NetKept(tally, net) && HeardKept(tally, net, since, heard)
    requires Steps(deliver, net, step, net')
    ensures HeardKept(NextTally(tally, net, step), net', NextSince(net, step, since), NextHeard(net, step, since, heard))
  {
    match step
    case Event(n, op) =>
      if !IsCounted(net.nodes[n], op) {
        EventHeard(tally, net, n, op, since, heard);
      }
    case Send(n) => assert NodeKept(tally, n, net.nodes[n]);
    case Receive(n, sender) => ReceivedCurrent(deliver, tally, net, n, sender, since, heard);
  }

  lemma {:induction false} HeardMeansCurrent<P(!new)>(deliver: Delivery<P>, start: map<NodeId, P>, run: SyncRun<P>)
    requires MergesCounts(deliver) && Happens(deliver, start, run)
    ensures HeardKept(Tally(start, run), run.State(start), SentSince(start, run), HeardSince(start, run))
  {
    match run
    case Fresh =>
    case Then(before, step, after) =>
      HeardMeansCurrent(deliver, start, before);
      NeverOverCounts(deliver, start, before);
      StepHeard(deliver, Tally(start, before), before.State(start), step, after,
                SentSince(start, before), HeardSince(start, before));
  }

  // Each node has, since the last event, received a readable document of every other.
  ghost predicate AllHeard<P>(start: map<NodeId, P>, run: SyncRun<P>) {
    forall n, j :: n in start && j in start && n != j ==> (n, j) in HeardSince(start, run)
  }

  // What node n can know of j's events at most: nothing of node zero's, unless it is node zero.
  function Knowable(tally: map<NodeId, nat>, n: NodeId, j: NodeId): (count: nat)
    requires j in tally
  {
    if j == 0 && n != 0 then 0 else tally[j]
  }

  // A node that has heard every other knows all it can.
  lemma AllKnown<P(!new)>(deliver: Delivery<P>, start: map<NodeId, P>, run: SyncRun<P>, n: NodeId)
    requires MergesCounts(deliver) && Happens(deliver, start, run)
    requires AllHeard(start, run) && n in start
    ensures n in run.State(start).nodes && Tally(start, run).Keys == start.Keys
    ensures NodeKept(Tally(start, run), n, run.State(start).nodes[n])
    ensures forall j :: j in start ==>
      NodeCount(run.State(start).nodes[n].counter, j) == Saturated(Knowable(Tally(start, run), n, j))
  {
    NamesStay(deliver, start, run);
    NeverOverCounts(deliver, start, run);
    HeardMeansCurrent(deliver, start, run);
    var tally, s := Tally(start, run), run.State(start).nodes[n];
    assert NodeKept(tally, n, s);
    forall j | j in start ensures NodeCount(s.counter, j) == Saturated(Knowable(tally, n, j)) {
      if j != n && j != 0 {
        assert (n, j) in HeardSince(start, run);
        assert Current(s.counter, tally, j);
      }
    }
  }

  // Has node zero no events of its own?
  predicate ZeroSilent(tally: map<NodeId, nat>) {
    0 in tally ==> tally[0] == 0
  }

  lemma KnownSame(a: Counts, b: Counts, tally: map<NodeId, nat>, n: NodeId, m: NodeId)
    requires Bounded(a, tally) && Bounded(b, tally) && ZeroSilent(tally)
    requires forall j :: j in tally ==> NodeCount(a, j) == Saturated(Knowable(tally, n, j))
    requires forall j :: j in tally ==> NodeCount(b, j) == Saturated(Knowable(tally, m, j))
    ensures a == b
  {
    forall j ensures (j in a <==> j in b) && NodeCount(a, j) == NodeCount(b, j) {
      if j in tally {
        assert NodeCount(a, j) == Saturated(Knowable(tally, n, j)) && NodeCount(b, j) == Saturated(Knowable(tally, m, j));
      }
    }
    assert a.Keys == b.Keys;
    SameCounts(a, b);
  }

  // Once each node has received a readable document every other sent after the last event, all
  // counters are the same exactly when there is only one node or node zero has had no event.
  lemma CountersAgreeExactly<P(!new)>(deliver: Delivery<P>, start: map<NodeId, P>, run: SyncRun<P>)
    requires MergesCounts(deliver) && Happens(deliver, start, run) && AllHeard(start, run)
    ensures run.State(start).nodes.Keys == start.Keys
    ensures (forall n, m :: n in start && m in start ==>
               run.State(start).nodes[n].counter == run.State(start).nodes[m].counter)
       <==> |start| <= 1 || ZeroSilent(Tally(start, run))
  {
    NamesStay(deliver, start, run);
    var nodes, tally := run.State(start).nodes, Tally(start, run);
    if ZeroSilent(tally) {
      forall n, m | n in start && m in start ensures nodes[n].counter == nodes[m].counter {
        AllKnown(deliver, start, run, n);
        AllKnown(deliver, start, run, m);
        KnownSame(nodes[n].counter, nodes[m].counter, tally, n, m);
      }
    } else if |start| <= 1 {
      OnlyOne(start.Keys, 0);
    } else {
      var n := Another(start.Keys, 0);
      AllKnown(deliver, start, run, 0);
      AllKnown(deliver, start, run, n);
      assert NodeCount(nodes[0].counter, 0) > 0 && NodeCount(nodes[n].counter, 0) == 0;
    }
  }

  lemma OnlyOne(s: set<NodeId>, n: NodeId)
    requires n in s && |s| <= 1
    ensures s == {n}
  {
    assert |s - {n}| == |s| - 1;
  }

  lemma Another(s: set<NodeId>, n: NodeId) returns (m: NodeId)
    requires n in s && |s| > 1
    ensures m in s && m != n
  {
    assert |s - {n}| == |s| - 1;
    m :| m in s - {n};
  }

  // ---------- The total ----------

  function SumOf(t: map<NodeId, nat>, ids: set<NodeId>): (r: nat)
    requires ids <= t.Keys
  {
    if ids == {} then 0 else t[Least(ids)] + SumOf(t, ids - {Least(ids)})
  }

  lemma {:induction false} SumOfBumped(t: map<NodeId, nat>, ids: set<NodeId>, n: NodeId)
    requires ids <= t.Keys && n in t
    ensures SumOf(t[n := t[n] + 1], ids) == SumOf(t, ids) + (if n in ids then 1 else 0)
  {
    if ids != {} {
      SumOfBumped(t, ids - {Least(ids)}, n);
    }
  }

  lemma {:induction false} SumOfZeros(t: map<NodeId, nat>, ids: set<NodeId>)
    requires ids <= t.Keys && forall n :: n in ids ==> t[n] == 0
    ensures SumOf(t, ids) == 0
  {
    if ids != {} {
      SumOfZeros(t, ids - {Least(ids)});
    }
  }

  lemma {:induction false} TallyTotal<P>(deliver: Delivery<P>, start: map<NodeId, P>, run: SyncRun<P>)
    requires Happens(deliver, start, run)
    ensures Tally(start, run).Keys == start.Keys
    ensures SumOf(Tally(start, run), start.Keys) == AllEvents(start, run)
  {
    NamesStay(deliver, start, run);
    match run
    case Fresh => SumOfZeros(Tally(start, run), start.Keys);
    case Then(before, step, _) =>
      TallyTotal(deliver, start, before);
      NamesStay(deliver, start, before);
      if CountedStep(before.State(start), step) {
        SumOfBumped(Tally(start, before), start.Keys, step.node);
      }
  }

  lemma {:induction false} SumsMatch(c: Counts, t: map<NodeId, nat>, ids: set<NodeId>)
    requires ids <= t.Keys && forall n :: n in ids ==> NodeCount(c, n) == t[n]
    ensures SumOver(c, ids) == SumOf(t, ids)
  {
    if ids != {} {
      SumsMatch(c, t, ids - {Least(ids)});
    }
  }

  lemma {:induction false} PartOfSum(t: map<NodeId, nat>, ids: set<NodeId>, n: NodeId)
    requires n in ids && ids <= t.Keys
    ensures t[n] <= SumOf(t, ids)
  {
    if n != Least(ids) {
      PartOfSum(t, ids - {Least(ids)}, n);
    }
  }

  // The tally a node can know of.
  function KnowableTally(tally: map<NodeId, nat>, n: NodeId): (t: map<NodeId, nat>) {
    map j | j in tally :: Knowable(tally, n, j)
  }

  lemma {:induction false} SumOfKnowable(tally: map<NodeId, nat>, n: NodeId, ids: set<NodeId>)
    requires ids <= tally.Keys
    ensures SumOf(KnowableTally(tally, n), ids) == SumOf(tally, ids) - (if 0 in ids && n != 0 then tally[0] else 0)
  {
    if ids != {} {
      SumOfKnowable(tally, n, ids - {Least(ids)});
    }
  }

  // Then every node reports the number of events there have been, node zero's apart unless it is node
  // zero itself, as long as 64 bits hold it.
  lemma TotalsExact<P(!new)>(deliver: Delivery<P>, start: map<NodeId, P>, run: SyncRun<P>, n: NodeId)
    requires MergesCounts(deliver) && Happens(deliver, start, run)
    requires AllHeard(start, run) && n in start && AllEvents(start, run) < U64_RANGE
    ensures n in run.State(start).nodes && Tally(start, run).Keys == start.Keys
    ensures Value(run.State(start).nodes[n].counter)
         == AllEvents(start, run) - (if 0 in start && n != 0 then Tally(start, run)[0] else 0)
  {
    AllKnown(deliver, start, run, n);
    TallyTotal(deliver, start, run);
    var tally, c := Tally(start, run), run.State(start).nodes[n].counter;
    var known := KnowableTally(tally, n);
    forall j | j in start ensures NodeCount(c, j) == known[j] {
      PartOfSum(tally, start.Keys, j);
      assert NodeCount(c, j) == Saturated(Knowable(tally, n, j));
    }
    assert c.Keys <= start.Keys;
    SumsMatch(c, known, start.Keys);
    SumOfKnowable(tally, n, start.Keys);
    SumOfMore(c, start.Keys);
    SmallModulo(SumOf(known, start.Keys), U64_RANGE);
  }

  // All of it holds for documents sent as bytes.
  lemma ReplicationOverTheWire<P(!new)>(codec: PeripheralCodec<P>, start: map<NodeId, P>, run: SyncRun<P>,
                                        n: NodeId, m: NodeId)
    requires Happens(OverTheWire(codec), start, run)
    requires n in start && m in start
    ensures n in run.State(start).nodes && m in run.State(start).nodes
    ensures var a, b := run.State(start).nodes[n].counter, run.State(start).nodes[m].counter;
      && NodeCount(a, m) <= NodeCount(b, m)
      && (AllHeard(start, run) && ZeroSilent(Tally(start, run)) ==> a == b)
      && (AllHeard(start, run) && ZeroSilent(Tally(start, run)) && AllEvents(start, run) < U64_RANGE ==>
            Value(a) == AllEvents(start, run))
  {
    WireMergesCounts(codec);
    OwnCountLeads(OverTheWire(codec), start, run, n, m);
    if AllHeard(start, run) && ZeroSilent(Tally(start, run)) {
      CountersAgreeExactly(OverTheWire(codec), start, run);
      if AllEvents(start, run) < U64_RANGE {
        TotalsExact(OverTheWire(codec), start, run, n);
      }
    }
  }
}
