/** Emergencies in the same network: documents may be lost, repeated and reordered, and still whatever
    a node holds of an emergency has happened. */
module EmergencyNetwork {
  import opened Common
  import opened CounterNetwork
  import opened Documents
  import opened DocumentSyncs
  import Emergencies
  import opened Tables

  // An emergency is named by who raised it and when.
  datatype EventName = EventName(source: NodeId, timestamp: u64)

  function NameOf(e: Emergencies.EmergencyEvent): (name: EventName) {
    EventName(e.sourceNode, e.timestamp)
  }

  // The emergencies started, the peers their sources then knew, and who acknowledged which.
  datatype History = History(
    started: set<EventName>,
    known: set<(NodeId, EventName)>,
    acked: set<(NodeId, EventName)>)
  {
    predicate Before(later: History) {
      started <= later.started && known <= later.known && acked <= later.acked
    }
  }

  function NextHistory<P>(h: History, net: SyncNet<P>, step: SyncStep<P>): (r: History) {
    if !step.Event? || step.node !in net.nodes then h
    else match step.op
      case StartEmergency(timestamp, knownPeers, _) =>
        var name := EventName(step.node, timestamp);
        h.(started := h.started + {name}, known := h.known + set id | id in knownPeers :: (id, name))
      case AckEmergency(_) =>
        var held := net.nodes[step.node].emergency;
        if held.None? then h else h.(acked := h.acked + {(step.node, NameOf(held.value))})
      case _ => h
  }

  function HistoryOf<P>(start: map<NodeId, P>, run: SyncRun<P>): (h: History) {
    match run
    case Fresh => History({}, {}, {})
    case Then(before, step, _) => NextHistory(HistoryOf(start, before), before.State(start), step)
  }

  // The event was started by its source; who is listed as having acknowledged it is its source or did
  // so; and who is listed at all was known to the source or has acknowledged.
  ghost predicate Happened(h: History, e: Emergencies.EmergencyEvent) {
    && NameOf(e) in h.started
    && (forall id :: e.HasAcked(id) ==> id == e.sourceNode || (id, NameOf(e)) in h.acked)
    && (forall id :: id in e.acks ==> id == e.sourceNode || (id, NameOf(e)) in h.known + h.acked)
  }

  ghost predicate HeldHappened(h: History, held: Option<Emergencies.EmergencyEvent>) {
    held.Some? ==> Happened(h, held.value)
  }

  ghost predicate NetHappened<P>(h: History, net: SyncNet<P>) {
    && (forall n :: n in net.nodes ==> net.nodes[n].nodeId == n && HeldHappened(h, net.nodes[n].emergency))
    && (forall s :: s in net.sent ==> Fits(s.emergency) && HeldHappened(h, s.emergency))
  }

  // ---------- One node ----------

  lemma LaterHappened(h: History, later: History, held: Option<Emergencies.EmergencyEvent>)
    requires h.Before(later) && HeldHappened(h, held)
    ensures HeldHappened(later, held)
  {
  }

  lemma MergedHappened(h: History, a: Emergencies.EmergencyEvent, b: Emergencies.EmergencyEvent)
    requires Happened(h, a) && Happened(h, b)
    ensures Happened(h, Emergencies.Merge(a, b).0)
  {
  }

  lemma PartHappened(h: History, part: Emergencies.EmergencyEvent, whole: Emergencies.EmergencyEvent)
    requires Emergencies.EventPart(part, whole) && Happened(h, whole)
    ensures Happened(h, part)
  {
  }

  lemma LocallyHappened<P>(h: History, net: SyncNet<P>, n: NodeId, op: LocalOp<P>)
    requires NetHappened(h, net) && n in net.nodes
    ensures h.Before(NextHistory(h, net, Event(n, op)))
    ensures Locally(net.nodes[n], op).nodeId == n
    ensures HeldHappened(NextHistory(h, net, Event(n, op)), Locally(net.nodes[n], op).emergency)
  {
  }

  // ---------- Deliveries ----------

  // All that matters of a delivery here: of a document whose emergency fits its section it takes
  // nothing, or merges a part of the sender's emergency.
  ghost predicate MergesEmergencies<P(!new)>(deliver: Delivery<P>) {
    forall s: SyncState<P>, sender: SyncState<P> :: Fits(sender.emergency) ==>
      deliver(s, sender).nodeId == s.nodeId && MergedTold(s.emergency, sender.emergency, deliver(s, sender).emergency)
  }

  ghost predicate MergedTold(ours: Option<Emergencies.EmergencyEvent>, theirs: Option<Emergencies.EmergencyEvent>,
                             after: Option<Emergencies.EmergencyEvent>) {
    exists told :: EmergencyTold(told, theirs) && after == MergeEmergency(ours, told).0
  }

  lemma WireMergesEmergencies<P(!new)>(codec: PeripheralCodec<P>)
    requires Sound(codec)
    ensures MergesEmergencies(OverTheWire(codec))
  {
    forall s: SyncState<P>, sender: SyncState<P> | Fits(sender.emergency)
      ensures var after := OverTheWire(codec)(s, sender);
        after.nodeId == s.nodeId && MergedTold(s.emergency, sender.emergency, after.emergency)
    {
      EmergencyArrives(codec, sender.Document());
      var decoded := Decode(codec, sender.Build(codec));
      var told := if decoded.None? || decoded.value.nodeId == s.nodeId then None else decoded.value.emergency;
      assert EmergencyTold(told, sender.emergency);
      assert OverTheWire(codec)(s, sender).emergency == MergeEmergency(s.emergency, told).0;
    }
  }

  lemma ToldHappened(h: History, ours: Option<Emergencies.EmergencyEvent>, theirs: Option<Emergencies.EmergencyEvent>,
                     after: Option<Emergencies.EmergencyEvent>)
    requires MergedTold(ours, theirs, after) && HeldHappened(h, ours) && HeldHappened(h, theirs)
    ensures HeldHappened(h, after)
  {
    var told :| EmergencyTold(told, theirs) && after == MergeEmergency(ours, told).0;
    if told.Some? {
      PartHappened(h, told.value, theirs.value);
      if ours.Some? {
        MergedHappened(h, ours.value, told.value);
      }
    }
  }

  // ---------- Every run ----------

  // Whatever was sent fitted its section.
  ghost predicate AllFit<P>(start: map<NodeId, P>, run: SyncRun<P>) {
    forall s :: s in run.State(start).sent ==> Fits(s.emergency)
  }

  lemma StepHappened<P(!new)>(deliver: Delivery<P>, h: History, net: SyncNet<P>, step: SyncStep<P>, net': SyncNet<P>)
    requires MergesEmergencies(deliver) && NetHappened(h, net) && Steps(deliver, net, step, net')
    requires forall s :: s in net'.sent ==> Fits(s.emergency)
    ensures NetHappened(NextHistory(h, net, step), net')
  {
    match step
    case Event(n, op) =>
      LocallyHappened(h, net, n, op);
      forall m | m in net.nodes ensures HeldHappened(NextHistory(h, net, step), net.nodes[m].emergency) {
        LaterHappened(h, NextHistory(h, net, step), net.nodes[m].emergency);
      }
      forall s | s in net.sent ensures HeldHappened(NextHistory(h, net, step), s.emergency) {
        LaterHappened(h, NextHistory(h, net, step), s.emergency);
      }
    case Send(n) =>
    case Receive(n, sender) =>
      ToldHappened(h, net.nodes[n].emergency, sender.emergency, deliver(net.nodes[n], sender).emergency);
  }

  lemma SentStays<P>(deliver: Delivery<P>, net: SyncNet<P>, step: SyncStep<P>, net': SyncNet<P>, s: SyncState<P>)
    requires Steps(deliver, net, step, net') && s in net.sent
    ensures s in net'.sent
  {
  }

  // In every run every emergency a node holds, or has sent, was started by its source; each node it
  // lists as having acknowledged it, other than its source, did; each it lists was known or did.
  lemma {:induction false} EmergenciesHappened<P(!new)>(deliver: Delivery<P>, start: map<NodeId, P>, run: SyncRun<P>)
    requires MergesEmergencies(deliver) && Happens(deliver, start, run) && AllFit(start, run)
    ensures NetHappened(HistoryOf(start, run), run.State(start))
  {
    match run
    case Fresh =>
    case Then(before, step, after) =>
      forall s | s in before.State(start).sent ensures Fits(s.emergency) {
        SentStays(deliver, before.State(start), step, after, s);
      }
      EmergenciesHappened(deliver, start, before);
      StepHappened(deliver, HistoryOf(start, before), before.State(start), step, after);
  }

  // So it is for documents sent as bytes.
  lemma HeldOverTheWire<P(!new)>(codec: PeripheralCodec<P>, start: map<NodeId, P>, run: SyncRun<P>, n: NodeId)
    requires Sound(codec) && Happens(OverTheWire(codec), start, run) && AllFit(start, run)
    requires n in run.State(start).nodes && run.State(start).nodes[n].emergency.Some?
    ensures Happened(HistoryOf(start, run), run.State(start).nodes[n].emergency.value)
  {
    WireMergesEmergencies(codec);
    EmergenciesHappened(OverTheWire(codec), start, run);
  }
}
